/**
 * The back end's deterministic core, from `app.py`: the database key, the
 * choice of prompt, the clean-up of the language model's reply, the two layers
 * of the `engine` map that `/predict` returns, and the inversion of the class
 * index. The classifier's outputs (label, year, confidences), the language
 * model call and `json.loads` are inputs.
 */
module Server {

  import opened Wrappers
  import opened Text
  import opened Decimal
  import opened Dict

  /** A JSON value as Python's `json` module hands it over; objects keep their key order. */
  datatype Json =
    | JNull
    | JBool(b: bool)
    | JNum(x: real)
    | JStr(s: string)
    | JArr(elems: seq<Json>)
    | JObj(fields: Dict<Json>)

  /** One entry of `output["engine"]`: `{"value": ..., "source": ..., "confidence": ...}`. */
  datatype EngineEntry = EngineEntry(value: Json, source: string, confidence: real)

  // ---- the database key and the prompt ----

  /** `f"{car}_{year}"`, the key into the engine database. */
  function DbKey(car: string, year: string): (k: string)
    ensures |k| == |car| + 1 + |year|
    ensures k[..|car|] == car && k[|car|] == '_' && k[|car| + 1..] == year
  {
    car + "_" + year
  }

  /**
   * Since class labels contain underscores themselves, different labels can
   * share a key: "a_b" in year "c" and "a" in year "b_c".
   */
  lemma DbKeyAmbiguous()
    ensures DbKey("a_b", "c") == DbKey("a", "b_c")
  {
  }

  /** A year without underscores is recovered from the key, and so is the label. */
  lemma DbKeyInjective(car1: string, year1: string, car2: string, year2: string)
    requires '_' !in year1 && '_' !in year2
    requires DbKey(car1, year1) == DbKey(car2, year2)
    ensures car1 == car2 && year1 == year2
  {
    var k := DbKey(car1, year1);
    if |year1| < |year2| {
      assert false;
    } else if |year2| < |year1| {
      assert false;
    }
  }

  /**
   * Which template `build_prompt` fills: the verified one with the database's
   * displacement, top speed, doors and seats, or the estimate one. The template
   * text is not modelled, only the branch and the values put into it.
   */
  datatype Prompt =
    | Verified(carText: string, year: string, displacement: Json, maxSpeed: Json, doors: Json, seats: Json)
    | Estimate(carText: string, year: string)

  /** The fields the verified template reads from a database record, in the order it reads them. */
  const VerifiedFields: seq<string> := ["displacement", "max_speed", "doors", "seats"]

  /** The first of `fields` that `specs` lacks, which is the `KeyError` Python raises. */
  function FirstMissing(specs: Dict<Json>, fields: seq<string>): (r: Option<string>)
    ensures r.None? <==> forall f :: f in fields ==> f in Keys(specs)
    ensures r.Some? ==> r.value in fields && r.value !in Keys(specs)
    ensures r.Some? ==> forall j :: 0 <= j < |fields| && fields[j] !in Keys(specs) ==> r.value in fields[..j + 1]
  {
    if fields == [] then None
    else if fields[0] !in Keys(specs) then assert fields[0] in fields; Some(fields[0])
    else
      assert forall f :: f in fields <==> f == fields[0] || f in fields[1..];
      var r := FirstMissing(specs, fields[1..]);
      if r.Some? then MissingShift(specs, fields, r.value); r else r
  }

  /** A field first missing from the rest of the list is first missing from the whole when its head is present. */
  lemma MissingShift(specs: Dict<Json>, fields: seq<string>, f: string)
    requires fields != [] && fields[0] in Keys(specs)
    requires forall j :: 0 <= j < |fields| - 1 && fields[1..][j] !in Keys(specs) ==> f in fields[1..][..j + 1]
    ensures forall j :: 0 <= j < |fields| && fields[j] !in Keys(specs) ==> f in fields[..j + 1]
  {
    forall j | 0 <= j < |fields| && fields[j] !in Keys(specs) ensures f in fields[..j + 1] {
      assert fields[j] == fields[1..][j - 1];
      assert fields[1..][..j] == fields[1..j + 1];
    }
  }

  /**
   * `build_prompt(car, year)`: the verified template exactly when the key is in
   * the database, failing when that record lacks one of the fields it reads.
   */
  function BuildPrompt(car: string, year: string, db: Dict<Dict<Json>>): (r: Result<Prompt, string>)
    ensures DbKey(car, year) !in Keys(db) ==> r.Ok? && r.value.Estimate?
    ensures DbKey(car, year) in Keys(db) ==>
      var specs := Get(db, DbKey(car, year)).value;
      && (r.Ok? <==> forall f :: f in VerifiedFields ==> f in Keys(specs))
      && (r.Ok? ==> r.value == Verified(r.value.carText, year,
                                        Get(specs, "displacement").value, Get(specs, "max_speed").value,
                                        Get(specs, "doors").value, Get(specs, "seats").value))
    ensures r.Ok? ==> r.value.carText == ReplaceChar(car, '_', ' ') && r.value.year == year
  {
    var carText := ReplaceChar(car, '_', ' ');
    match Get(db, DbKey(car, year))
    case None => Ok(Estimate(carText, year))
    case Some(specs) =>
      match FirstMissing(specs, VerifiedFields)
      case Some(f) => Err("'" + f + "'")
      case None =>
        Ok(Verified(carText, year, Get(specs, "displacement").value, Get(specs, "max_speed").value,
                    Get(specs, "doors").value, Get(specs, "seats").value))
  }

  /** The car's name in either template never shows an underscore. */
  lemma PromptCarTextClean(car: string, year: string, db: Dict<Dict<Json>>)
    requires BuildPrompt(car, year, db).Ok?
    ensures '_' !in BuildPrompt(car, year, db).value.carText
  {
    ReplaceCharRemoves(car, '_', ' ');
  }

  // ---- cleaning the model's reply ----

  const Backticks: set<char> := {'`'}

  /**
   * `gemma_out.strip().strip("`").replace("json", "", 1).strip()`: trim, strip
   * backticks from both ends, drop the first "json" wherever it is, trim again.
   */
  function CleanReply(raw: string): (r: string)
    ensures r != [] ==> r[0] !in PyWhitespace && r[|r| - 1] !in PyWhitespace
  {
    Trim(ReplaceFirst(Strip(Trim(raw), Backticks), "json", ""))
  }

  /** A reply fenced as a Markdown JSON block comes out as the block's trimmed content. */
  lemma CleanReplyFenced(body: string)
    requires body != [] && body[|body| - 1] != '`'
    ensures CleanReply("```json" + body + "```") == Trim(body)
  {
    var raw := "```json" + body + "```";
    StripStable(raw, PyWhitespace);
    StripFence(body);
    DropJsonTag(body);
  }

  /** Stripping backticks from a fenced reply leaves the "json" tag and the body. */
  lemma StripFence(body: string)
    requires body != [] && body[|body| - 1] != '`'
    ensures Strip("```json" + body + "```", Backticks) == "json" + body
  {
    var raw := "```json" + body + "```";
    var lo := LeadingIn(raw, Backticks);
    assert raw[3] == 'j';
    assert lo == 3;
    var t := raw[3..];
    assert t == "json" + body + "```";
    var n := TrailingIn(t, Backticks);
    assert t[|t| - 4] == body[|body| - 1];
    assert n == 3;
  }

  /** Replacing the first "json" of a text that starts with it drops those four letters. */
  lemma DropJsonTag(body: string)
    ensures ReplaceFirst("json" + body, "json", "") == body
  {
    var s := "json" + body;
    assert OccursAt(s, "json", 0);
    assert s[4..] == body;
  }

  /** A reply that is neither fenced nor mentions "json" only loses its surrounding whitespace. */
  lemma CleanReplyPlain(raw: string)
    requires var t := Trim(raw); t == [] || (t[0] != '`' && t[|t| - 1] != '`')
    requires forall j: nat :: !OccursAt(Trim(raw), "json", j)
    ensures CleanReply(raw) == Trim(raw)
  {
    StripStable(Trim(raw), Backticks);
    StripIdempotent(raw, PyWhitespace);
  }

  // ---- reading the model's entries ----

  /**
   * Python's `float(x)` on a parsed JSON value: numbers as they are, booleans
   * as 1.0 and 0.0, strings by their decimal text after trimming; anything
   * else raises.
   */
  function PyFloat(j: Json): (r: Option<real>)
    ensures j.JNum? ==> r == Some(j.x)
    ensures j.JBool? ==> r == Some(if j.b then 1.0 else 0.0)
    ensures j.JNull? || j.JArr? || j.JObj? ==> r == None
    ensures j.JStr? ==> (r.Some? <==> ParseDecimal(Trim(j.s)).Some?)
    ensures j.JStr? && r.Some? ==> r == Some(Value(ParseDecimal(Trim(j.s)).value))
  {
    match j
    case JNum(x) => Some(x)
    case JBool(b) => Some(if b then 1.0 else 0.0)
    case JStr(s) =>
      (match ParseDecimal(Trim(s))
       case Some(f) => Some(Value(f))
       case None => None)
    case _ => None
  }

  /** A confidence written as `toFixed` text reads back as the rounded number. */
  lemma PyFloatReadsFixedText(f: Fixed)
    ensures PyFloat(JStr(FixedText(f))) == Some(Value(f))
  {
    FixedTextTrimmed(f);
    ParseFixedText(f);
  }

  /** A sign or a digit is not whitespace. */
  lemma NotWhitespace(c: char)
    requires c == '-' || IsDigit(c)
    ensures c !in PyWhitespace
  {
  }

  /** `toFixed` text has no surrounding whitespace. */
  lemma FixedTextTrimmed(f: Fixed)
    ensures Trim(FixedText(f)) == FixedText(f)
  {
    var s := FixedText(f);
    FixedTextEnds(f);
    NotWhitespace(s[0]);
    NotWhitespace(s[|s| - 1]);
    StripStable(s, PyWhitespace);
  }

  /** Why the model's part of the engine map stopped, one kind per exception `predict` can catch there. */
  datatype LlmError =
    | AskFailed(reason: string)
    | InvalidJson(reason: string)
    | NotAnObject
    | EntryNotAnObject(key: string)
    | MissingField(key: string, field: string)
    | BadConfidence(key: string)

  /**
   * The entry the model's object `obj` under `key` becomes: its "value", source
   * "Gemma" and `float` of its "confidence"; reading a field that is not
   * there, or a confidence that is not a number, raises.
   */
  function LlmEntry(key: string, obj: Json): (r: Result<EngineEntry, LlmError>)
    ensures r.Ok? <==> obj.JObj? && "value" in Keys(obj.fields) && "confidence" in Keys(obj.fields)
                       && PyFloat(Get(obj.fields, "confidence").value).Some?
    ensures r.Ok? ==> r.value == EngineEntry(Get(obj.fields, "value").value, "Gemma",
                                            PyFloat(Get(obj.fields, "confidence").value).value)
    ensures r.Err? ==> r.error.EntryNotAnObject? || r.error.MissingField? || r.error.BadConfidence?
  {
    if !obj.JObj? then Err(EntryNotAnObject(key))
    else
      match Get(obj.fields, "value")
      case None => Err(MissingField(key, "value"))
      case Some(v) =>
        match Get(obj.fields, "confidence")
        case None => Err(MissingField(key, "confidence"))
        case Some(c) =>
          match PyFloat(c)
          case None => Err(BadConfidence(key))
          case Some(x) => Ok(EngineEntry(v, "Gemma", x))
  }

  // ---- the two layers of the engine map ----

  /** A database entry: its value, source "CompCars", confidence 1.0. */
  function DbEntry(v: Json): EngineEntry {
    EngineEntry(v, "CompCars", 1.0)
  }

  /** The first loop of `predict`: each database pair in order is assigned into `engine`. */
  function DbLayer(engine: Dict<EngineEntry>, specs: Dict<Json>): (r: Dict<EngineEntry>)
    ensures forall k :: k in Keys(r) <==> k in Keys(engine) || k in Keys(specs)
  {
    if specs == [] then engine
    else
      var (k, v) := specs[|specs| - 1];
      var prev := DbLayer(engine, specs[..|specs| - 1]);
      Snoc(specs);
      KeysSet(prev, k, DbEntry(v));
      Set(prev, k, DbEntry(v))
  }

  /** The engine map so far and the error that stopped the second loop, if one did. */
  datatype Stage = Stage(engine: Dict<EngineEntry>, error: Option<LlmError>)

  /**
   * The second loop of `predict`: each of the model's pairs in order is
   * assigned into `engine` until the first one that raises; the entries
   * assigned before it stay.
   */
  function LlmLayer(engine: Dict<EngineEntry>, items: Dict<Json>): (r: Stage)
    ensures forall k :: k in Keys(engine) ==> k in Keys(r.engine)
    ensures forall k :: k in Keys(r.engine) ==> k in Keys(engine) || k in Keys(items)
  {
    if items == [] then Stage(engine, None)
    else
      var prev := LlmLayer(engine, items[..|items| - 1]);
      Snoc(items);
      if prev.error.Some? then prev
      else
        var (k, obj) := items[|items| - 1];
        match LlmEntry(k, obj)
        case Err(e) => Stage(prev.engine, Some(e))
        case Ok(entry) => KeysSet(prev.engine, k, entry); Stage(Set(prev.engine, k, entry), None)
  }

  /**
   * After the database loop each database key holds its value tagged
   * "CompCars" with confidence 1.0, and every other key what it held before.
   */
  lemma {:induction false} DbLayerGet(engine: Dict<EngineEntry>, specs: Dict<Json>, k: string)
    requires UniqueKeys(specs)
    ensures Get(DbLayer(engine, specs), k) ==
      if k in Keys(specs) then Some(DbEntry(Get(specs, k).value)) else Get(engine, k)
  {
    if specs != [] {
      var init := specs[..|specs| - 1];
      var (key, v) := specs[|specs| - 1];
      Snoc(specs);
      UniqueInit(specs);
      DbLayerGet(engine, init, k);
      GetAppend(init, key, v, k);
      if k == key {
        GetSetSame(DbLayer(engine, init), key, DbEntry(v));
      } else {
        GetSetOther(DbLayer(engine, init), key, DbEntry(v), k);
      }
    }
  }

  /** Starting from the empty map, the database loop keeps the database's key order. */
  lemma {:induction false} DbLayerKeys(specs: Dict<Json>)
    requires UniqueKeys(specs)
    ensures Keys(DbLayer([], specs)) == Keys(specs)
  {
    if specs != [] {
      var init := specs[..|specs| - 1];
      var (key, v) := specs[|specs| - 1];
      Snoc(specs);
      UniqueInit(specs);
      DbLayerKeys(init);
      KeysSet(DbLayer([], init), key, DbEntry(v));
    }
  }

  /** A key the model did not return keeps whatever the engine map held under it. */
  lemma {:induction false} LlmLayerFrame(engine: Dict<EngineEntry>, items: Dict<Json>, k: string)
    requires k !in Keys(items)
    ensures Get(LlmLayer(engine, items).engine, k) == Get(engine, k)
  {
    if items != [] {
      var init := items[..|items| - 1];
      Snoc(items);
      LlmLayerFrame(engine, init, k);
      var prev := LlmLayer(engine, init);
      if prev.error.None? && LlmEntry(items[|items| - 1].0, items[|items| - 1].1).Ok? {
        GetSetOther(prev.engine, items[|items| - 1].0,
                    LlmEntry(items[|items| - 1].0, items[|items| - 1].1).value, k);
      }
    }
  }

  /** The model's loop never removes or reorders a key: the old keys stay first, in order. */
  lemma {:induction false} LlmLayerKeys(engine: Dict<EngineEntry>, items: Dict<Json>)
    ensures |Keys(engine)| <= |Keys(LlmLayer(engine, items).engine)|
    ensures Keys(LlmLayer(engine, items).engine)[..|Keys(engine)|] == Keys(engine)
  {
    if items != [] {
      var init := items[..|items| - 1];
      LlmLayerKeys(engine, init);
      var prev := LlmLayer(engine, init);
      var (k, obj) := items[|items| - 1];
      if prev.error.None? && LlmEntry(k, obj).Ok? {
        KeysSet(prev.engine, k, LlmEntry(k, obj).value);
        var before := Keys(prev.engine);
        assert (before + [k])[..|Keys(engine)|] == before[..|Keys(engine)|];
      }
    }
  }

  /**
   * When no entry raised, every key the model returned holds that entry's
   * value with source "Gemma" and its confidence, overwriting the database.
   */
  lemma {:induction false} LlmLayerOverwrites(engine: Dict<EngineEntry>, items: Dict<Json>, k: string)
    requires UniqueKeys(items) && k in Keys(items)
    requires LlmLayer(engine, items).error.None?
    ensures LlmEntry(k, Get(items, k).value).Ok?
    ensures Get(LlmLayer(engine, items).engine, k) == Some(LlmEntry(k, Get(items, k).value).value)
  {
    var init := items[..|items| - 1];
    var (key, obj) := items[|items| - 1];
    Snoc(items);
    UniqueInit(items);
    GetAppend(init, key, obj, k);
    var prev := LlmLayer(engine, init);
    assert prev.error.None?;
    if k == key {
      GetSetSame(prev.engine, key, LlmEntry(key, obj).value);
    } else {
      LlmLayerOverwrites(engine, init, k);
      GetSetOther(prev.engine, key, LlmEntry(key, obj).value, k);
    }
  }

  /** Once an entry has raised, the later ones are not looked at. */
  lemma {:induction false} LlmLayerStops(engine: Dict<EngineEntry>, items: Dict<Json>, i: nat)
    requires i <= |items| && LlmLayer(engine, items[..i]).error.Some?
    ensures LlmLayer(engine, items) == LlmLayer(engine, items[..i])
    decreases |items| - i
  {
    if i < |items| {
      assert items[..i + 1][..i] == items[..i];
      LlmLayerStops(engine, items, i + 1);
    } else {
      assert items[..i] == items;
    }
  }

  /**
   * When an entry raised, the result is exactly the entries before it
   * applied, and the error is that entry's.
   */
  lemma {:induction false} LlmLayerPartial(engine: Dict<EngineEntry>, items: Dict<Json>)
    requires LlmLayer(engine, items).error.Some?
    ensures exists i :: (0 <= i < |items|
      && LlmLayer(engine, items[..i]).error.None?
      && LlmEntry(items[i].0, items[i].1) == Err(LlmLayer(engine, items).error.value)
      && LlmLayer(engine, items).engine == LlmLayer(engine, items[..i]).engine)
  {
    var n := |items| - 1;
    var init := items[..n];
    var prev := LlmLayer(engine, init);
    if prev.error.Some? {
      LlmLayerPartial(engine, init);
      var i :| 0 <= i < |init|
        && LlmLayer(engine, init[..i]).error.None?
        && LlmEntry(init[i].0, init[i].1) == Err(prev.error.value)
        && prev.engine == LlmLayer(engine, init[..i]).engine;
      assert init[..i] == items[..i];
      assert init[i] == items[i];
    } else {
      assert items[n] == items[|items| - 1];
    }
  }

  // ---- the response of `/predict` ----

  /** The dictionary `predict` returns. */
  datatype Output = Output(
    car: string,
    year: string,
    modelConfidence: real,
    yearConfidence: real,
    engine: Dict<EngineEntry>,
    llmError: Option<LlmError>)

  /** The top-level keys of the returned dictionary, in order. */
  function OutputKeys(o: Output): (ks: seq<string>)
    ensures |ks| >= 4 && ks[..4] == ["car", "year", "confidence", "engine"]
    ensures "llm error" in ks <==> o.llmError.Some?
  {
    ["car", "year", "confidence", "engine"] + (if o.llmError.Some? then ["llm error"] else [])
  }

  /** The engine map after the database loop: empty when the key is not in the database. */
  function DbEngine(car: string, year: string, db: Dict<Dict<Json>>): Dict<EngineEntry> {
    match Get(db, DbKey(car, year))
    case None => []
    case Some(specs) => DbLayer([], specs)
  }

  /** The pairs of the model's reply, when it parses as a JSON object. */
  function ReplyItems(reply: Result<string, string>, jsonLoads: string -> Result<Json, string>): Dict<Json> {
    match reply
    case Err(_) => []
    case Ok(text) =>
      match jsonLoads(CleanReply(text))
      case Ok(JObj(items)) => items
      case _ => []
  }

  /** The inner `try` of `predict`: ask, clean, parse, then the second loop. */
  function LlmStage(engine: Dict<EngineEntry>, reply: Result<string, string>,
                    jsonLoads: string -> Result<Json, string>): Stage
  {
    match reply
    case Err(m) => Stage(engine, Some(AskFailed(m)))
    case Ok(text) =>
      match jsonLoads(CleanReply(text))
      case Err(m) => Stage(engine, Some(InvalidJson(m)))
      case Ok(inferred) =>
        if inferred.JObj? then LlmLayer(engine, inferred.fields) else Stage(engine, Some(NotAnObject))
  }

  /**
   * The engine map after the model's part is the model's loop applied to the
   * pairs of the reply, none when the reply fails or is not an object; when
   * nothing failed, the stage is that loop's outcome.
   */
  lemma LlmStageIsLayer(engine: Dict<EngineEntry>, reply: Result<string, string>,
                        jsonLoads: string -> Result<Json, string>)
    ensures LlmStage(engine, reply, jsonLoads).engine == LlmLayer(engine, ReplyItems(reply, jsonLoads)).engine
    ensures LlmStage(engine, reply, jsonLoads).error.None? ==>
      LlmStage(engine, reply, jsonLoads) == LlmLayer(engine, ReplyItems(reply, jsonLoads))
    ensures reply.Err? ==> LlmStage(engine, reply, jsonLoads).error == Some(AskFailed(reply.error))
  {
    var items := ReplyItems(reply, jsonLoads);
    if reply.Ok? {
      var parsed := jsonLoads(CleanReply(reply.value));
      if parsed.Ok? && parsed.value.JObj? {
        assert items == parsed.value.fields;
      } else {
        assert items == [];
        assert LlmLayer(engine, items) == Stage(engine, None);
      }
    } else {
      assert LlmLayer(engine, items) == Stage(engine, None);
    }
  }

  /** Only the keys of the model's reply can change; a reply that fails before its entries changes nothing. */
  lemma LlmStageFrame(engine: Dict<EngineEntry>, reply: Result<string, string>,
                      jsonLoads: string -> Result<Json, string>, k: string)
    requires k !in Keys(ReplyItems(reply, jsonLoads))
    ensures Get(LlmStage(engine, reply, jsonLoads).engine, k) == Get(engine, k)
  {
    if reply.Ok? && jsonLoads(CleanReply(reply.value)).Ok? && jsonLoads(CleanReply(reply.value)).value.JObj? {
      LlmLayerFrame(engine, jsonLoads(CleanReply(reply.value)).value.fields, k);
    }
  }

  /**
   * What `predict` returns for a classified image: the output dictionary, or
   * the message of the HTTP 500 it raises when `build_prompt` fails. The
   * response carries the classifier's label, year and confidences, and an
   * "llm error" field exactly when the model's part failed; it fails as a
   * whole exactly when the database record lacks a field the prompt reads.
   */
  function Assemble(car: string, year: string, modelConfidence: real, yearConfidence: real,
                    db: Dict<Dict<Json>>, askGemma: Prompt -> Result<string, string>,
                    jsonLoads: string -> Result<Json, string>): (r: Result<Output, string>)
    ensures r.Err? <==> (DbKey(car, year) in Keys(db)
                         && exists f :: f in VerifiedFields && f !in Keys(Get(db, DbKey(car, year)).value))
    ensures r.Err? ==> r.error == "'" + FirstMissing(Get(db, DbKey(car, year)).value, VerifiedFields).value + "'"
    ensures r.Ok? ==>
      && r.value.car == car && r.value.year == year
      && r.value.modelConfidence == modelConfidence && r.value.yearConfidence == yearConfidence
      && OutputKeys(r.value)[..4] == ["car", "year", "confidence", "engine"]
      && ("llm error" in OutputKeys(r.value) <==>
            LlmStage(DbEngine(car, year, db), askGemma(BuildPrompt(car, year, db).value), jsonLoads).error.Some?)
  {
    match BuildPrompt(car, year, db)
    case Err(m) => Err(m)
    case Ok(prompt) =>
      var s := LlmStage(DbEngine(car, year, db), askGemma(prompt), jsonLoads);
      Ok(Output(car, year, modelConfidence, yearConfidence, s.engine, s.error))
  }

  /**
   * Database entries survive in the response under their own key, tagged
   * "CompCars" with confidence 1.0, unless the model returned that key; and
   * without a database record every engine entry came from the model.
   */
  lemma AssembleKeepsDatabase(car: string, year: string, modelConfidence: real, yearConfidence: real,
                              db: Dict<Dict<Json>>, askGemma: Prompt -> Result<string, string>,
                              jsonLoads: string -> Result<Json, string>, k: string)
    requires Assemble(car, year, modelConfidence, yearConfidence, db, askGemma, jsonLoads).Ok?
    requires k !in Keys(ReplyItems(askGemma(BuildPrompt(car, year, db).value), jsonLoads))
    requires DbKey(car, year) in Keys(db) ==> UniqueKeys(Get(db, DbKey(car, year)).value)
    ensures var out := Assemble(car, year, modelConfidence, yearConfidence, db, askGemma, jsonLoads).value;
      && (DbKey(car, year) in Keys(db) && k in Keys(Get(db, DbKey(car, year)).value) ==>
            Get(out.engine, k) == Some(DbEntry(Get(Get(db, DbKey(car, year)).value, k).value)))
      && (DbKey(car, year) !in Keys(db) ==> Get(out.engine, k) == None)
  {
    var key := DbKey(car, year);
    LlmStageFrame(DbEngine(car, year, db), askGemma(BuildPrompt(car, year, db).value), jsonLoads, k);
    if key in Keys(db) {
      DbLayerGet([], Get(db, key).value, k);
    }
  }

  /** The first `for` loop of `predict`, over the database record. */
  method AddDatabaseEntries(engine: Dict<EngineEntry>, specs: Dict<Json>) returns (r: Dict<EngineEntry>)
    ensures r == DbLayer(engine, specs)
  {
    r := engine;
    var i := 0;
    while i < |specs|
      invariant 0 <= i <= |specs|
      invariant r == DbLayer(engine, specs[..i])
    {
      assert specs[..i + 1][..i] == specs[..i];
      r := Set(r, specs[i].0, DbEntry(specs[i].1));
      i := i + 1;
    }
    assert specs[..i] == specs;
  }

  /** The second `for` loop of `predict`, left by the first entry that raises. */
  method AddModelEntries(engine: Dict<EngineEntry>, items: Dict<Json>) returns (s: Stage)
    ensures s == LlmLayer(engine, items)
  {
    var current := engine;
    var i := 0;
    while i < |items|
      invariant 0 <= i <= |items|
      invariant Stage(current, None) == LlmLayer(engine, items[..i])
    {
      assert items[..i + 1][..i] == items[..i];
      var entry := LlmEntry(items[i].0, items[i].1);
      if entry.Err? {
        LlmLayerStops(engine, items, i + 1);
        return Stage(current, Some(entry.error));
      }
      current := Set(current, items[i].0, entry.value);
      i := i + 1;
    }
    assert items[..i] == items;
    s := Stage(current, None);
  }

  /**
   * `predict` after the classifier: the database loop, the prompt, then the
   * model's loop; any failure of the model's part is recorded, not raised.
   */
  method Predict(car: string, year: string, modelConfidence: real, yearConfidence: real,
                 db: Dict<Dict<Json>>, askGemma: Prompt -> Result<string, string>,
                 jsonLoads: string -> Result<Json, string>) returns (r: Result<Output, string>)
    ensures r == Assemble(car, year, modelConfidence, yearConfidence, db, askGemma, jsonLoads)
  {
    var engine: Dict<EngineEntry> := [];
    var record := Get(db, DbKey(car, year));
    if record.Some? {
      engine := AddDatabaseEntries(engine, record.value);
    }
    assert engine == DbEngine(car, year, db);
    var prompt := BuildPrompt(car, year, db);
    if prompt.Err? {
      return Err(prompt.error);
    }
    var stage := Stage(engine, None);
    var reply := askGemma(prompt.value);
    if reply.Err? {
      stage := Stage(engine, Some(AskFailed(reply.error)));
    } else {
      var parsed := jsonLoads(CleanReply(reply.value));
      if parsed.Err? {
        stage := Stage(engine, Some(InvalidJson(parsed.error)));
      } else if !parsed.value.JObj? {
        stage := Stage(engine, Some(NotAnObject));
      } else {
        stage := AddModelEntries(engine, parsed.value.fields);
      }
    }
    assert stage == LlmStage(engine, reply, jsonLoads);
    r := Ok(Output(car, year, modelConfidence, yearConfidence, stage.engine, stage.error));
  }

  // ---- the class index ----

  /**
   * `{int(v): k for k, v in class_to_idx.items()}`: each index maps to its
   * label; should two labels share an index, the later one wins.
   */
  function IdxToClass(classToIdx: Dict<int>): (m: map<int, string>)
    ensures forall i :: i in m <==> i in Values(classToIdx)
  {
    if classToIdx == [] then map[]
    else
      var init := classToIdx[..|classToIdx| - 1];
      var (k, v) := classToIdx[|classToIdx| - 1];
      assert Values(classToIdx) == Values(init) + [v];
      IdxToClass(init)[v := k]
  }

  /** Every label the inverted map gives has that index in `class_to_idx`. */
  lemma {:induction false} IdxToClassSound(classToIdx: Dict<int>, i: int)
    requires UniqueKeys(classToIdx) && i in IdxToClass(classToIdx)
    ensures Get(classToIdx, IdxToClass(classToIdx)[i]) == Some(i)
  {
    var init := classToIdx[..|classToIdx| - 1];
    var (k, v) := classToIdx[|classToIdx| - 1];
    Snoc(classToIdx);
    UniqueInit(classToIdx);
    if i == v {
      GetAppend(init, k, v, k);
    } else {
      IdxToClassSound(init, i);
      GetAppend(init, k, v, IdxToClass(init)[i]);
    }
  }

  /** No two labels share an index. */
  ghost predicate InjectiveIndex(classToIdx: Dict<int>) {
    forall a, b :: 0 <= a < b < |classToIdx| ==> classToIdx[a].1 != classToIdx[b].1
  }

  /** With distinct indices, inverting recovers every label from its index. */
  lemma {:induction false} IdxToClassInverse(classToIdx: Dict<int>, k: string)
    requires UniqueKeys(classToIdx) && InjectiveIndex(classToIdx) && k in Keys(classToIdx)
    ensures Get(classToIdx, k).value in IdxToClass(classToIdx)
    ensures IdxToClass(classToIdx)[Get(classToIdx, k).value] == k
  {
    var n := |classToIdx| - 1;
    var init := classToIdx[..n];
    var (key, v) := classToIdx[n];
    Snoc(classToIdx);
    UniqueInit(classToIdx);
    GetAppend(init, key, v, k);
    assert IdxToClass(classToIdx) == IdxToClass(init)[v := key];
    if k != key {
      InjectivePrefix(classToIdx);
      IdxToClassInverse(init, k);
      var j := KeyIndex(init, k);
      GetAt(init, j);
      assert init[j] == classToIdx[j];
      assert Get(init, k).value != v;
    }
  }

  lemma InjectivePrefix(classToIdx: Dict<int>)
    requires InjectiveIndex(classToIdx) && classToIdx != []
    ensures InjectiveIndex(classToIdx[..|classToIdx| - 1])
  {
    var init := classToIdx[..|classToIdx| - 1];
    forall a, b | 0 <= a < b < |init| ensures init[a].1 != init[b].1 {
      assert init[a] == classToIdx[a] && init[b] == classToIdx[b];
    }
  }
}
