/**
 * The browser page's state and its handlers, from `static/script.js`: file
 * selection, the analysis gate around the request to `/predict`, the scan
 * counter and its persisted copy, and the results view with its grid of spec
 * cards. The request itself is a parameter: the response the page receives.
 */
module Client {

  import opened Wrappers
  import opened Text
  import opened Report

  /** A file the user picked or dropped; only its MIME type matters to the page. */
  datatype ImageFile = ImageFile(name: string, mimeType: string)

  /** `file.type.startsWith('image/')`. */
  predicate IsImage(f: ImageFile) {
    StartsWith(f.mimeType, "image/")
  }

  /**
   * The first file of a file list (`files[0]`) when there is one and it is an
   * image; otherwise nothing is loaded.
   */
  function AcceptedFile(files: seq<ImageFile>): (r: Option<ImageFile>)
    ensures r.Some? <==> |files| > 0 && IsImage(files[0])
    ensures r.Some? ==> r.value == files[0]
  {
    if |files| > 0 && IsImage(files[0]) then Some(files[0]) else None
  }

  /**
   * The body of a successful `/predict` response. The engine entries are an
   * array because the page writes litre values back into them.
   */
  datatype Prediction = Prediction(
    car: string,
    year: string,
    modelConfidence: real,
    yearConfidence: real,
    engine: array<SpecItem>)

  /**
   * What `fetch` yields: no response at all (network failure), or a status with
   * a body that either parses as a prediction or does not.
   */
  datatype Response = NetworkFailure | Reply(status: int, body: Option<Prediction>)

  /** `response.ok` together with a body that `response.json()` can read. */
  predicate Succeeds(r: Response) {
    r.Reply? && 200 <= r.status <= 299 && r.body.Some?
  }

  /**
   * A response the page counts: it succeeds, and displaying it does not throw
   * (no engine entry is named after an inherited member).
   */
  predicate Completes(r: Response)
    reads if r.Reply? && r.body.Some? then {r.body.value.engine} else {}
  {
    Succeeds(r) && !RenderGrid(r.body.value.engine[..]).failed
  }

  /** The message the page shows when an analysis fails. */
  const FailureMessage: string := "Failed to analyze image. The API request to /predict failed."

  /** The persisted `autoVisionStats` record; a missing or falsy count is `None`. */
  datatype StoredStats = StoredStats(scansCount: Option<int>)

  /** `stats.scansCount || 0`. */
  function StoredCount(s: StoredStats): (n: int)
    ensures s.scansCount.Some? ==> n == s.scansCount.value
    ensures s.scansCount.None? ==> n == 0
  {
    s.scansCount.GetOr(0)
  }

  /** `JSON.stringify({ scansCount })` as the record it stores. */
  function Saved(count: int): (s: StoredStats)
    ensures StoredCount(s) == count
  {
    StoredStats(Some(count))
  }

  /** The results header: name, year, headline and its tier, and the two bars. */
  datatype Header = Header(
    carName: string,
    year: string,
    headline: string,
    badge: Tier,
    modelBar: string,
    yearBar: string)

  /** The header `displayResults` fills in for a prediction. */
  function HeaderOf(p: Prediction): (h: Header)
    ensures h.carName == FormatCarName(p.car) && h.year == p.year
    ensures h.headline == HeadlineText(p.modelConfidence, p.yearConfidence)
    ensures h.badge == High <==> RawHeadline(p.modelConfidence, p.yearConfidence) >= 79.95
    ensures h.badge == Low <==> RawHeadline(p.modelConfidence, p.yearConfidence) < 59.95
    ensures h.modelBar == BarText(p.modelConfidence) && h.yearBar == BarText(p.yearConfidence)
  {
    BadgeThresholds(p.modelConfidence, p.yearConfidence);
    Header(FormatCarName(p.car), p.year,
           HeadlineText(p.modelConfidence, p.yearConfidence),
           BadgeTier(p.modelConfidence, p.yearConfidence),
           BarText(p.modelConfidence), BarText(p.yearConfidence))
  }

  /**
   * The entries after the page's loop stopped after `n` cards: the first `n`
   * have their displacement in litres, the rest are as they were.
   */
  predicate NormalizedUpTo(now: seq<SpecItem>, before: seq<SpecItem>, n: nat) {
    |now| == |before| && forall j :: 0 <= j < |now| ==> now[j] == if j < n then Normalized(before[j]) else before[j]
  }

  /**
   * What the page's loop leaves for the entries `before` it started from: the
   * cards and the exception flag of `RenderGrid`, the entries of those cards
   * in litres and the rest untouched; when nothing threw, every entry's
   * intended card and every entry normalised.
   */
  predicate GridShown(before: seq<SpecItem>, now: seq<SpecItem>, cards: seq<Card>, failed: bool) {
    && Grid(cards, failed) == RenderGrid(before)
    && NormalizedUpTo(now, before, |cards|)
    && (!failed ==> cards == RenderAll(before) && now == NormalizeAll(before))
  }

  /** One more step of the page's loop, when it has not thrown yet. */
  lemma RenderGridStep(items: seq<SpecItem>, i: nat)
    requires i < |items| && !RenderGrid(items[..i]).failed
    ensures RenderSpecAsWritten(items[i]).Ok? ==>
      RenderGrid(items[..i + 1]) == Grid(RenderGrid(items[..i]).cards + [RenderSpecAsWritten(items[i]).value], false)
    ensures RenderSpecAsWritten(items[i]).Err? ==>
      RenderGrid(items[..i + 1]) == Grid(RenderGrid(items[..i]).cards, true)
  {
    assert items[..i + 1][..i] == items[..i];
  }

  /**
   * The `forEach` callback of `displayEngineSpecs` for entry `i`: it looks the
   * key up on the catalog object, writes a litre displacement back into the
   * entry, and makes the card, which throws for an inherited name.
   */
  method ShowEntry(engine: array<SpecItem>, i: nat) returns (card: Result<Card, string>)
    requires i < engine.Length
    modifies engine
    ensures card == RenderSpecAsWritten(old(engine[i]))
    ensures card.Ok? ==> card.value == RenderSpec(old(engine[i]))
    ensures engine[i] == Normalized(old(engine[i]))
    ensures card.Err? ==> engine[i] == old(engine[i])
    ensures forall j :: 0 <= j < engine.Length && j != i ==> engine[j] == old(engine[j])
  {
    var key := engine[i].key;
    var spec := engine[i].entry;
    var config := LookupAsWritten(key);
    if IsDisplacementKey(key) && spec.value.Num? {
      config := Own(Catalog["displacement_l"]);
      if spec.value.x > 20.0 {
        spec := spec.(value := Num(spec.value.x / 1000.0));
        engine[i] := SpecItem(key, spec);
      }
    }
    assert engine[i] == SpecItem(key, spec);
    match config
    case Inherited =>
      card := Err(IconError);
    case Own(d) =>
      card := Ok(CreateSpecCard(d, spec));
    case Made(d) =>
      card := Ok(CreateSpecCard(d, spec));
  }

  /**
   * The `forEach` of `displayEngineSpecs`: each entry in order has its
   * displacement written back in litres and gets one card, until a card throws.
   */
  method ShowEntries(engine: array<SpecItem>) returns (cards: seq<Card>, failed: bool)
    modifies engine
    ensures GridShown(old(engine[..]), engine[..], cards, failed)
  {
    ghost var orig := engine[..];
    cards := [];
    failed := false;
    var i := 0;
    while i < engine.Length && !failed
      invariant 0 <= i <= engine.Length
      invariant Grid(cards, failed) == RenderGrid(orig[..i])
      invariant !failed ==> |cards| == i
      invariant NormalizedUpTo(engine[..], orig, |cards|)
      decreases engine.Length - i
    {
      RenderGridStep(orig, i);
      var card := ShowEntry(engine, i);
      if card.Ok? {
        cards := cards + [card.value];
      } else {
        failed := true;
      }
      i := i + 1;
    }
    if failed {
      RenderGridStays(orig, i);
    } else {
      assert orig[..i] == orig;
      RenderGridWhole(orig);
      NormalizedAll(orig, engine[..]);
    }
  }

  /** Entries normalised one by one are the normalised entries. */
  lemma NormalizedAll(orig: seq<SpecItem>, now: seq<SpecItem>)
    requires NormalizedUpTo(now, orig, |orig|)
    ensures now == NormalizeAll(orig)
  {
    NormalizeAllAt(orig);
  }

  /** The page's `state` object together with what it shows and what it has persisted. */
  class App {
    var selectedFile: Option<ImageFile>
    var isAnalyzing: bool
    var scansCount: int
    /** The `autoVisionStats` item of local storage. */
    var storage: Option<StoredStats>
    /** The results header, once a prediction has been displayed. */
    var header: Option<Header>
    var resultsVisible: bool
    /** The cards in the specs grid, in display order. */
    var specsGrid: seq<Card>
    /** The error messages shown so far. */
    var errors: seq<string>

    /** The initial `state`, then `init`'s `loadStoredStats`. */
    constructor (stored: Option<StoredStats>)
      ensures selectedFile == None && !isAnalyzing
      ensures storage == stored
      ensures scansCount == (if stored.Some? then StoredCount(stored.value) else 0)
      ensures header == None && !resultsVisible && specsGrid == [] && errors == []
    {
      selectedFile := None;
      isAnalyzing := false;
      scansCount := 0;
      storage := stored;
      header := None;
      resultsVisible := false;
      specsGrid := [];
      errors := [];
      new;
      LoadStoredStats();
    }

    /** `loadStoredStats`: the count comes from storage when there is a stored record. */
    method LoadStoredStats()
      modifies this
      ensures storage.Some? ==> scansCount == StoredCount(storage.value)
      ensures storage.None? ==> scansCount == old(scansCount)
      ensures selectedFile == old(selectedFile) && isAnalyzing == old(isAnalyzing)
      ensures storage == old(storage) && header == old(header) && resultsVisible == old(resultsVisible)
      ensures specsGrid == old(specsGrid) && errors == old(errors)
    {
      if storage.Some? {
        scansCount := StoredCount(storage.value);
      }
    }

    /** `saveStats`: the stored record now reads back as the current count. */
    method SaveStats()
      modifies this
      ensures storage == Some(Saved(scansCount))
      ensures StoredCount(storage.value) == scansCount
      ensures scansCount == old(scansCount)
      ensures selectedFile == old(selectedFile) && isAnalyzing == old(isAnalyzing)
      ensures header == old(header) && resultsVisible == old(resultsVisible)
      ensures specsGrid == old(specsGrid) && errors == old(errors)
    {
      storage := Some(Saved(scansCount));
    }

    /** `updateStats`: one more scan, persisted at once. */
    method UpdateStats()
      modifies this
      ensures scansCount == old(scansCount) + 1
      ensures storage.Some? && StoredCount(storage.value) == scansCount
      ensures selectedFile == old(selectedFile) && isAnalyzing == old(isAnalyzing)
      ensures header == old(header) && resultsVisible == old(resultsVisible)
      ensures specsGrid == old(specsGrid) && errors == old(errors)
    {
      scansCount := scansCount + 1;
      SaveStats();
    }

    /** `loadFile`, with the preview it shows once the file is read. */
    method LoadFile(file: ImageFile)
      modifies this
      ensures selectedFile == Some(file) && !resultsVisible
      ensures isAnalyzing == old(isAnalyzing) && scansCount == old(scansCount)
      ensures storage == old(storage) && header == old(header)
      ensures specsGrid == old(specsGrid) && errors == old(errors)
    {
      selectedFile := Some(file);
      resultsVisible := false;
    }

    /**
     * `handleFileSelect`: the first chosen file is loaded when it is an image;
     * anything else leaves the page as it was. It does not look at `isAnalyzing`.
     */
    method HandleFileSelect(files: seq<ImageFile>)
      modifies this
      ensures AcceptedFile(files).Some? ==> selectedFile == AcceptedFile(files) && !resultsVisible
      ensures AcceptedFile(files).None? ==>
        selectedFile == old(selectedFile) && resultsVisible == old(resultsVisible)
      ensures isAnalyzing == old(isAnalyzing) && scansCount == old(scansCount)
      ensures storage == old(storage) && header == old(header)
      ensures specsGrid == old(specsGrid) && errors == old(errors)
    {
      if |files| > 0 && IsImage(files[0]) {
        LoadFile(files[0]);
      }
    }

    /** `handleDrop`: the same rule for the first dropped file. */
    method HandleDrop(files: seq<ImageFile>)
      modifies this
      ensures AcceptedFile(files).Some? ==> selectedFile == AcceptedFile(files) && !resultsVisible
      ensures AcceptedFile(files).None? ==>
        selectedFile == old(selectedFile) && resultsVisible == old(resultsVisible)
      ensures isAnalyzing == old(isAnalyzing) && scansCount == old(scansCount)
      ensures storage == old(storage) && header == old(header)
      ensures specsGrid == old(specsGrid) && errors == old(errors)
    {
      if |files| > 0 && IsImage(files[0]) {
        LoadFile(files[0]);
      }
    }

    /** `clearSelection`: no file, and the results are hidden. */
    method ClearSelection()
      modifies this
      ensures selectedFile == None && !resultsVisible
      ensures isAnalyzing == old(isAnalyzing) && scansCount == old(scansCount)
      ensures storage == old(storage) && header == old(header)
      ensures specsGrid == old(specsGrid) && errors == old(errors)
    {
      selectedFile := None;
      resultsVisible := false;
    }

    /**
     * `displayEngineSpecs`: the grid is emptied and refilled by the entries'
     * cards; `failed` says that a card threw, which ends the loop.
     */
    method DisplayEngineSpecs(engine: array<SpecItem>) returns (failed: bool)
      modifies this, engine
      ensures GridShown(old(engine[..]), engine[..], specsGrid, failed)
      ensures selectedFile == old(selectedFile) && isAnalyzing == old(isAnalyzing)
      ensures scansCount == old(scansCount) && storage == old(storage)
      ensures header == old(header) && resultsVisible == old(resultsVisible) && errors == old(errors)
    {
      var cards;
      cards, failed := ShowEntries(engine);
      specsGrid := cards;
    }

    /** The part of `displayResults` before the grid: name, year, headline, badge and bars. */
    method ShowHeader(p: Prediction)
      modifies this
      ensures header == Some(HeaderOf(p))
      ensures selectedFile == old(selectedFile) && isAnalyzing == old(isAnalyzing)
      ensures scansCount == old(scansCount) && storage == old(storage) && errors == old(errors)
      ensures resultsVisible == old(resultsVisible) && specsGrid == old(specsGrid)
    {
      header := Some(HeaderOf(p));
    }

    /**
     * `displayResults`: the header, then the spec grid; the results are shown
     * only when the grid was built without an exception, which otherwise
     * leaves `displayResults` before it.
     */
    method DisplayResults(p: Prediction) returns (failed: bool)
      modifies this, p.engine
      ensures header == Some(HeaderOf(p))
      ensures resultsVisible == if failed then old(resultsVisible) else true
      ensures GridShown(old(p.engine[..]), p.engine[..], specsGrid, failed)
      ensures selectedFile == old(selectedFile) && isAnalyzing == old(isAnalyzing)
      ensures scansCount == old(scansCount) && storage == old(storage) && errors == old(errors)
    {
      ShowHeader(p);
      failed := DisplayEngineSpecs(p.engine);
      if !failed {
        resultsVisible := true;
      }
    }

    /**
     * `analyzeImage` up to its request: nothing happens without a selected file
     * or while a run is in flight; otherwise the run starts and the selected
     * file is what is sent.
     */
    method StartAnalysis() returns (request: Option<ImageFile>)
      modifies this
      ensures old(selectedFile).None? || old(isAnalyzing) ==>
        request == None && isAnalyzing == old(isAnalyzing)
      ensures old(selectedFile).Some? && !old(isAnalyzing) ==>
        request == old(selectedFile) && isAnalyzing
      ensures selectedFile == old(selectedFile) && scansCount == old(scansCount)
      ensures storage == old(storage) && header == old(header) && resultsVisible == old(resultsVisible)
      ensures specsGrid == old(specsGrid) && errors == old(errors)
    {
      if selectedFile.None? || isAnalyzing {
        return None;
      }
      isAnalyzing := true;
      request := selectedFile;
    }

    /**
     * The rest of `analyzeImage`, once the response is in: on success the
     * results are displayed and the scan is counted; when the request fails,
     * or when displaying the results throws, the error is shown and the count
     * stays; either way the run is over.
     */
    method CompleteAnalysis(response: Response)
      modifies this, if response.Reply? && response.body.Some? then {response.body.value.engine} else {}
      ensures !isAnalyzing && selectedFile == old(selectedFile)
      ensures old(Completes(response)) ==>
        && scansCount == old(scansCount) + 1
        && storage.Some? && StoredCount(storage.value) == scansCount
        && header == Some(HeaderOf(response.body.value)) && resultsVisible
        && specsGrid == RenderAll(old(response.body.value.engine[..]))
        && response.body.value.engine[..] == NormalizeAll(old(response.body.value.engine[..]))
        && errors == old(errors)
      ensures !old(Completes(response)) ==>
        && scansCount == old(scansCount) && storage == old(storage)
        && errors == old(errors) + [FailureMessage]
      ensures !Succeeds(response) ==>
        && header == old(header) && resultsVisible == old(resultsVisible)
        && specsGrid == old(specsGrid)
        && (response.Reply? && response.body.Some? ==>
              response.body.value.engine[..] == old(response.body.value.engine[..]))
      ensures Succeeds(response) && !old(Completes(response)) ==>
        && header == Some(HeaderOf(response.body.value)) && resultsVisible == old(resultsVisible)
        && specsGrid == RenderGrid(old(response.body.value.engine[..])).cards
        && NormalizedUpTo(response.body.value.engine[..], old(response.body.value.engine[..]), |specsGrid|)
    {
      var shown := false;
      if Succeeds(response) {
        var failed := DisplayResults(response.body.value);
        if !failed {
          UpdateStats();
          shown := true;
        }
      }
      if !shown {
        errors := errors + [FailureMessage];
      }
      isAnalyzing := false;
    }

    /**
     * `analyzeImage` as one step, for a response that arrives before anything
     * else happens on the page: nothing at all changes when the run is gated;
     * otherwise the outcome is that of `CompleteAnalysis`.
     */
    method AnalyzeImage(response: Response)
      modifies this, if response.Reply? && response.body.Some? then {response.body.value.engine} else {}
      ensures selectedFile == old(selectedFile)
      ensures old(selectedFile).None? || old(isAnalyzing) ==>
        && isAnalyzing == old(isAnalyzing) && scansCount == old(scansCount)
        && storage == old(storage) && header == old(header) && resultsVisible == old(resultsVisible)
        && specsGrid == old(specsGrid) && errors == old(errors)
        && (response.Reply? && response.body.Some? ==>
              response.body.value.engine[..] == old(response.body.value.engine[..]))
      ensures old(selectedFile).Some? && !old(isAnalyzing) ==>
        && !isAnalyzing
        && scansCount == old(scansCount) + (if old(Completes(response)) then 1 else 0)
        && errors == old(errors) + (if old(Completes(response)) then [] else [FailureMessage])
        && (old(Completes(response)) ==>
              && storage.Some? && StoredCount(storage.value) == scansCount
              && header == Some(HeaderOf(response.body.value)) && resultsVisible
              && specsGrid == RenderAll(old(response.body.value.engine[..]))
              && response.body.value.engine[..] == NormalizeAll(old(response.body.value.engine[..])))
        && (!old(Completes(response)) ==> storage == old(storage))
        && (!Succeeds(response) ==>
              && header == old(header) && resultsVisible == old(resultsVisible)
              && specsGrid == old(specsGrid)
              && (response.Reply? && response.body.Some? ==>
                    response.body.value.engine[..] == old(response.body.value.engine[..])))
        && (Succeeds(response) && !old(Completes(response)) ==>
              && header == Some(HeaderOf(response.body.value)) && resultsVisible == old(resultsVisible)
              && specsGrid == RenderGrid(old(response.body.value.engine[..])).cards)
    {
      var request := StartAnalysis();
      if request.Some? {
        CompleteAnalysis(response);
      }
    }
  }

  // ---- whole-page scenarios ----

  /** A second click while the first request is in flight sends nothing. */
  method TwoClicksOneRequest(file: ImageFile, stored: Option<StoredStats>)
    returns (first: Option<ImageFile>, second: Option<ImageFile>)
    requires IsImage(file)
    ensures first == Some(file) && second == None
  {
    var app := new App(stored);
    app.HandleFileSelect([file]);
    first := app.StartAnalysis();
    second := app.StartAnalysis();
  }

  /** Without a selected file, analysing does nothing, even with a good response waiting. */
  method NoFileNoRun(stored: Option<StoredStats>, car: string, year: string, items: seq<SpecItem>)
    returns (analyzing: bool, before: int, after: int, errorsShown: nat)
    ensures !analyzing && after == before && errorsShown == 0
  {
    var engine := new SpecItem[|items|](j requires 0 <= j < |items| => items[j]);
    var app := new App(stored);
    before := app.scansCount;
    app.AnalyzeImage(Reply(200, Some(Prediction(car, year, 0.9, 0.9, engine))));
    analyzing := app.isAnalyzing;
    after := app.scansCount;
    errorsShown := |app.errors|;
  }

  /**
   * A successful scan, then a reload of the page from what it stored: the
   * reloaded page starts from the increased count, and the grid holds one card
   * per engine entry.
   */
  method ScanThenReload(file: ImageFile, stored: Option<StoredStats>, car: string, year: string,
                        model: real, yearConfidence: real, items: seq<SpecItem>)
    returns (before: int, after: int, reloaded: int, cards: seq<Card>)
    requires IsImage(file) && NoInherited(items)
    ensures after == before + 1 && reloaded == after
    ensures cards == RenderAll(items)
  {
    RenderGridClean(items);
    var engine := new SpecItem[|items|](j requires 0 <= j < |items| => items[j]);
    assert engine[..] == items;
    var app := new App(stored);
    before := app.scansCount;
    app.HandleDrop([file]);
    var response := Reply(200, Some(Prediction(car, year, model, yearConfidence, engine)));
    assert Completes(response);
    app.AnalyzeImage(response);
    after := app.scansCount;
    cards := app.specsGrid;
    var page := new App(app.storage);
    reloaded := page.scansCount;
  }

  /** A failed scan leaves the count and the stored record, shows one error and ends the run. */
  method FailedScanKeepsCount(file: ImageFile, stored: Option<StoredStats>, status: int)
    returns (before: int, after: int, storedBefore: Option<StoredStats>, storedAfter: Option<StoredStats>,
             analyzing: bool, errorsShown: nat)
    requires IsImage(file) && !(200 <= status <= 299)
    ensures after == before && storedAfter == storedBefore && storedAfter == stored
    ensures !analyzing && errorsShown == 1
  {
    var app := new App(stored);
    before := app.scansCount;
    storedBefore := app.storage;
    app.HandleFileSelect([file]);
    app.AnalyzeImage(Reply(status, None));
    after := app.scansCount;
    storedAfter := app.storage;
    analyzing := app.isAnalyzing;
    errorsShown := |app.errors|;
  }

  /**
   * A successful reply whose engine holds a spec named "toString": the page
   * throws while building the grid, so the scan is not counted, one error is
   * shown, the results stay hidden and the grid is left empty.
   */
  method InheritedKeyScan(file: ImageFile, stored: Option<StoredStats>, car: string, year: string,
                          entry: SpecEntry)
    returns (before: int, after: int, errorsShown: nat, visible: bool, cards: seq<Card>)
    requires IsImage(file)
    ensures after == before && errorsShown == 1 && !visible && cards == []
  {
    var engine := new SpecItem[1](j => SpecItem("toString", entry));
    assert RenderGrid(engine[..]) == Grid([], true) by {
      assert engine[..][..0] == [];
      GridAppendErr(engine[..]);
    }
    var app := new App(stored);
    before := app.scansCount;
    app.HandleFileSelect([file]);
    app.AnalyzeImage(Reply(200, Some(Prediction(car, year, 0.9, 0.9, engine))));
    after := app.scansCount;
    errorsShown := |app.errors|;
    visible := app.resultsVisible;
    cards := app.specsGrid;
  }
}
