/**
 * The browser report: how a prediction is turned into display text. These are
 * the pure parts of `static/script.js` (name formatting, headline confidence
 * and its tier, confidence bars, the spec catalog, displacement normalisation
 * and the content of one spec card).
 */
module Report {

  import opened Wrappers
  import opened Text
  import opened Decimal

  // ---- formatCarName ----

  /** `/^\d{4}$/`: exactly four ASCII digits. */
  predicate IsYearToken(w: string) {
    |w| == 4 && AllDigits(w)
  }

  /** First character upper-cased, the rest lower-cased. */
  function TitleCase(w: string): (r: string)
    ensures |r| == |w|
  {
    if w == [] then [] else [ToUpper(w[0])] + LowerAll(w[1..])
  }

  predicate IsTitleCased(w: string) {
    w == [] || (!IsAsciiLower(w[0]) && forall i :: 1 <= i < |w| ==> !IsAsciiUpper(w[i]))
  }

  /** The tokens a classifier label splits into: underscores and spaces both separate. */
  function Tokens(car: string): (ts: seq<string>)
    ensures |ts| >= 1
  {
    Split(ReplaceChar(car, '_', ' '), ' ')
  }

  /** The tokens that are not four-digit years, in their original order. */
  function DropYears(ts: seq<string>): (r: seq<string>)
    ensures forall w :: w in r ==> w in ts && !IsYearToken(w)
    ensures forall w :: w in ts && !IsYearToken(w) ==> w in r
    ensures |r| <= |ts|
  {
    if ts == [] then []
    else if IsYearToken(ts[0]) then DropYears(ts[1..])
    else [ts[0]] + DropYears(ts[1..])
  }

  function TitleCaseAll(ts: seq<string>): (r: seq<string>)
    ensures |r| == |ts|
    ensures forall i :: 0 <= i < |ts| ==> r[i] == TitleCase(ts[i])
  {
    if ts == [] then [] else [TitleCase(ts[0])] + TitleCaseAll(ts[1..])
  }

  /**
   * The words `formatCarName` keeps, before they are joined: one per token that
   * is not a year, in order, with the same letters, title-cased, and free of
   * separators.
   */
  function NameWords(car: string): (ws: seq<string>)
    ensures |ws| == |DropYears(Tokens(car))|
    ensures forall i :: 0 <= i < |ws| ==> LowerAll(ws[i]) == LowerAll(DropYears(Tokens(car))[i])
    ensures forall w :: w in ws ==> ' ' !in w && '_' !in w
    ensures forall w :: w in ws ==> IsTitleCased(w) && !IsYearToken(w)
  {
    KeptWordsFacts(car);
    TitleCaseAll(DropYears(Tokens(car)))
  }

  /**
   * `formatCarName`: "Audi_A4_Sedan_2012" becomes "Audi A4 Sedan". The name
   * has no underscore, is empty when every token was a year, and otherwise
   * splits on single spaces into exactly its words.
   */
  function FormatCarName(car: string): (name: string)
    ensures '_' !in name
    ensures NameWords(car) == [] ==> name == ""
    ensures NameWords(car) != [] ==> Split(name, ' ') == NameWords(car)
  {
    var ws := NameWords(car);
    JoinAvoids(ws, ' ', '_');
    if ws == [] then Join(ws, ' ') else SplitJoin(ws, ' '); Join(ws, ' ')
  }

  lemma CaseMapKeepsNonLetters(c: char)
    requires !IsAsciiLower(c) && !IsAsciiUpper(c)
    ensures ToUpper(c) == c && ToLower(c) == c
  {
  }

  lemma CaseMapGivesNoSeparator(c: char, sep: char)
    requires !IsAsciiLower(sep) && !IsAsciiUpper(sep) && c != sep
    ensures ToUpper(c) != sep && ToLower(c) != sep
  {
  }

  /** Title-casing keeps a separator-free token separator-free, and yields a title-cased token. */
  lemma TitleCaseFacts(w: string, sep: char)
    requires !IsAsciiLower(sep) && !IsAsciiUpper(sep)
    ensures sep !in w ==> sep !in TitleCase(w)
    ensures IsTitleCased(TitleCase(w))
    ensures IsYearToken(TitleCase(w)) <==> IsYearToken(w)
    ensures TitleCase(TitleCase(w)) == TitleCase(w)
  {
    var r := TitleCase(w);
    if sep !in w {
      forall i | 0 <= i < |w| ensures r[i] != sep {
        CaseMapGivesNoSeparator(w[i], sep);
      }
    }
    if w != [] {
      assert forall i :: 1 <= i < |w| ==> r[i] == ToLower(w[i]);
      var rr := TitleCase(r);
      assert forall i :: 1 <= i < |w| ==> rr[i] == ToLower(r[i]);
    }
  }

  /** Title-casing changes only the case of letters: lower-casing both sides gives the same text. */
  lemma TitleCaseKeepsLetters(w: string)
    ensures LowerAll(TitleCase(w)) == LowerAll(w)
  {
    var r := TitleCase(w);
    forall i | 0 <= i < |w| ensures LowerAll(r)[i] == LowerAll(w)[i] {
      CaseInverse(w[i]);
      if i > 0 {
        assert r[i] == LowerAll(w[1..])[i - 1] == ToLower(w[i]);
      }
    }
  }

  lemma {:induction false} DropYearsOfClean(ts: seq<string>)
    requires forall w :: w in ts ==> !IsYearToken(w)
    ensures DropYears(ts) == ts
  {
    if ts != [] {
      DropYearsOfClean(ts[1..]);
    }
  }

  /** Dropping year tokens works piecewise, so the surviving tokens keep their order. */
  lemma {:induction false} DropYearsAppend(a: seq<string>, b: seq<string>)
    ensures DropYears(a + b) == DropYears(a) + DropYears(b)
  {
    if a != [] {
      assert (a + b)[1..] == a[1..] + b;
      DropYearsAppend(a[1..], b);
    } else {
      assert a + b == b;
    }
  }

  /** The facts `NameWords` promises, about the title-cased tokens that are not years. */
  lemma KeptWordsFacts(car: string)
    ensures var kept := DropYears(Tokens(car));
      && |TitleCaseAll(kept)| == |kept|
      && (forall i :: 0 <= i < |kept| ==> LowerAll(TitleCaseAll(kept)[i]) == LowerAll(kept[i]))
      && (forall w :: w in TitleCaseAll(kept) ==> ' ' !in w && '_' !in w)
      && (forall w :: w in TitleCaseAll(kept) ==> IsTitleCased(w) && !IsYearToken(w))
  {
    var ts := Tokens(car);
    ReplaceCharRemoves(car, '_', ' ');
    var kept := DropYears(ts);
    var ws := TitleCaseAll(kept);
    forall t | t in ts ensures '_' !in t {
      var spaced := ReplaceChar(car, '_', ' ');
      if '_' in t {
        SplitKeepsAbsent(spaced, ' ', '_', t);
      }
    }
    forall i | 0 <= i < |kept| ensures LowerAll(ws[i]) == LowerAll(kept[i]) {
      TitleCaseKeepsLetters(kept[i]);
    }
    forall w | w in ws
      ensures ' ' !in w && '_' !in w && IsTitleCased(w) && !IsYearToken(w)
    {
      var i :| 0 <= i < |kept| && w == TitleCase(kept[i]);
      assert kept[i] in ts;
      TitleCaseFacts(kept[i], ' ');
      TitleCaseFacts(kept[i], '_');
    }
  }

  lemma {:induction false} SplitKeepsAbsent(s: string, sep: char, c: char, t: string)
    requires c !in s && t in Split(s, sep)
    ensures c !in t
  {
    if s != [] {
      var rest := Split(s[1..], sep);
      if s[0] == sep {
        assert Split(s, sep) == [""] + rest;
        if t != "" {
          SplitKeepsAbsent(s[1..], sep, c, t);
        }
      } else {
        var parts := [[s[0]] + rest[0]] + rest[1..];
        assert Split(s, sep) == parts;
        if t == [s[0]] + rest[0] {
          SplitKeepsAbsent(s[1..], sep, c, rest[0]);
        } else {
          assert t in rest;
          SplitKeepsAbsent(s[1..], sep, c, t);
        }
      }
    }
  }

  /** Formatting a display name again changes nothing. */
  lemma FormatCarNameIdempotent(car: string)
    ensures FormatCarName(FormatCarName(car)) == FormatCarName(car)
  {
    var name := FormatCarName(car);
    var ws := NameWords(car);
    if ws == [] {
      assert name == "";
      assert Tokens(name) == [""];
      assert DropYears([""]) == [""];
    } else {
      ReplaceCharAbsent(name, '_', ' ');
      assert Tokens(name) == ws;
      DropYearsOfClean(ws);
      forall i | 0 <= i < |ws| ensures TitleCase(ws[i]) == ws[i] {
        var tokens := DropYears(Tokens(car));
        TitleCaseFacts(tokens[i], ' ');
      }
      assert TitleCaseAll(ws) == ws;
    }
  }

  // ---- headline confidence, tier and bars ----

  datatype Tier = High | Medium | Low

  /** `updateConfidenceBadge`: at least 80 is high, at least 60 medium, anything else low. */
  function TierOf(confidence: real): (t: Tier)
    ensures t == High <==> confidence >= 80.0
    ensures t == Medium <==> 60.0 <= confidence < 80.0
    ensures t == Low <==> confidence < 60.0
  {
    if confidence >= 80.0 then High else if confidence >= 60.0 then Medium else Low
  }

  function Rank(t: Tier): nat {
    match t
    case Low => 0
    case Medium => 1
    case High => 2
  }

  /** A higher confidence never gets a lower tier. */
  lemma TierMonotone(a: real, b: real)
    requires a <= b
    ensures Rank(TierOf(a)) <= Rank(TierOf(b))
  {
  }

  /** The mean of the two axis confidences as a percentage, before rounding. */
  function RawHeadline(model: real, year: real): real {
    (model + year) / 2.0 * 100.0
  }

  /** `((model + year) / 2 * 100).toFixed(1)`. */
  function Headline(model: real, year: real): Fixed {
    ToFixed(RawHeadline(model, year), 1)
  }

  /** The headline text: the rounded mean, then a percent sign; the number part reads back as the rounded mean. */
  function HeadlineText(model: real, year: real): (t: string)
    ensures |t| >= 2 && t[|t| - 1] == '%'
    ensures ParseDecimal(t[..|t| - 1]) == Some(Headline(model, year))
  {
    var f := Headline(model, year);
    FixedTextEnds(f);
    ParseFixedText(f);
    assert (FixedText(f) + "%")[..|FixedText(f)|] == FixedText(f);
    FixedText(f) + "%"
  }

  /**
   * The badge tier: the headline text is read back with `parseFloat` and then
   * tiered; a text that does not read as a number (NaN) fails both comparisons.
   */
  function BadgeTier(model: real, year: real): (t: Tier)
    ensures t == TierOf(Value(Headline(model, year)))
  {
    ParseFixedText(Headline(model, year));
    match ParseDecimal(FixedText(Headline(model, year)))
    case None => Low
    case Some(f) => TierOf(Value(f))
  }

  /** For a non-negative x, its one-decimal rounding reaches a whole number n exactly when x + 0.05 does. */
  lemma TenthsReach(x: real, n: int)
    requires x >= 0.0
    ensures Value(ToFixed(x, 1)) >= n as real <==> x * 10.0 + 0.5 >= (10 * n) as real
  {
    var h := ToFixed(x, 1);
    assert Pow10(1) == 10;
    var m := h.magnitude;
    assert x * 10.0 - 0.5 < m as real <= x * 10.0 + 0.5;
    assert Value(h) == m as real / 10.0;
    assert Value(h) >= n as real <==> m >= 10 * n;
  }

  /**
   * Because the tier is taken after rounding to one decimal, the thresholds
   * on the raw mean are effectively 79.95 and 59.95.
   */
  lemma BadgeThresholds(model: real, year: real)
    ensures BadgeTier(model, year) == High <==> RawHeadline(model, year) >= 79.95
    ensures BadgeTier(model, year) == Medium <==> 59.95 <= RawHeadline(model, year) < 79.95
    ensures BadgeTier(model, year) == Low <==> RawHeadline(model, year) < 59.95
  {
    var raw := RawHeadline(model, year);
    var v := Value(Headline(model, year));
    if raw < 0.0 {
      assert v <= 0.0;
    } else {
      TenthsReach(raw, 80);
      TenthsReach(raw, 60);
    }
  }

  /** A raw mean of 79.96 shows as 80.0 and gets the high tier, though the raw value is below 80. */
  lemma RoundingLiftsTier()
    ensures RawHeadline(0.7996, 0.7996) < 80.0
    ensures TierOf(RawHeadline(0.7996, 0.7996)) == Medium
    ensures BadgeTier(0.7996, 0.7996) == High
  {
    BadgeThresholds(0.7996, 0.7996);
  }

  /** `updateConfidenceBar`: a confidence as a percentage to one decimal, with its percent sign. */
  function BarText(confidence: real): (t: string)
    ensures |t| >= 2 && t[|t| - 1] == '%'
    ensures ParseDecimal(t[..|t| - 1]) == Some(ToFixed(confidence * 100.0, 1))
  {
    var f := ToFixed(confidence * 100.0, 1);
    FixedTextEnds(f);
    ParseFixedText(f);
    assert (FixedText(f) + "%")[..|FixedText(f)|] == FixedText(f);
    FixedText(f) + "%"
  }

  // ---- the spec catalog ----

  /** Which icon a card shows; the catalog's icons are SVG paths, the fallback a chart glyph. */
  datatype Icon =
    | DisplacementIcon | PowerIcon | TorqueIcon | CylindersIcon | AspirationIcon | GearboxIcon
    | FuelIcon | SpeedIcon | DoorsIcon | SeatsIcon | AccelerationIcon | DriveTypeIcon
    | PlaceholderIcon

  datatype Descriptor = Descriptor(name: string, unit: string, icon: Icon)

  /** `specConfigs`: the fixed display metadata of the known spec keys. */
  const Catalog: map<string, Descriptor> := map[
    "displacement" := Descriptor("Displacement", "L", DisplacementIcon),
    "displacement_l" := Descriptor("Displacement", "L", DisplacementIcon),
    "bhp" := Descriptor("Power", "BHP", PowerIcon),
    "torque_nm" := Descriptor("Torque", "Nm", TorqueIcon),
    "cylinders" := Descriptor("Cylinders", "", CylindersIcon),
    "aspiration" := Descriptor("Aspiration", "", AspirationIcon),
    "gearbox" := Descriptor("Gearbox", "", GearboxIcon),
    "fuel" := Descriptor("Fuel Type", "", FuelIcon),
    "top_speed_kmh" := Descriptor("Top Speed", "km/h", SpeedIcon),
    "max_speed" := Descriptor("Max Speed", "km/h", SpeedIcon),
    "doors" := Descriptor("Doors", "", DoorsIcon),
    "seats" := Descriptor("Seats", "", SeatsIcon),
    "acceleration" := Descriptor("Acceleration", "s", AccelerationIcon),
    "drive_type" := Descriptor("Drive Type", "", DriveTypeIcon)
  ]

  /** The descriptor made up for a key the catalog does not know. */
  function Fallback(key: string): Descriptor {
    Descriptor(key, "", PlaceholderIcon)
  }

  /** Catalog lookup with the fallback for unknown keys (own entries of the catalog only). */
  function LookupDescriptor(key: string): (d: Descriptor)
    ensures key in Catalog ==> d == Catalog[key] && d.icon != PlaceholderIcon
    ensures key !in Catalog ==> d.name == key && d.unit == "" && d.icon == PlaceholderIcon
  {
    if key in Catalog then Catalog[key] else Fallback(key)
  }

  // ---- one spec entry ----

  /** A spec value: a JSON number, or anything else, held as the text the page shows for it. */
  datatype SpecValue = Num(x: real) | Shown(text: string)

  datatype SpecEntry = SpecEntry(value: SpecValue, confidence: real, source: Option<string>)

  /** One `[key, spec]` pair of `Object.entries(engineData)`. */
  datatype SpecItem = SpecItem(key: string, entry: SpecEntry)

  predicate IsDisplacementKey(key: string) {
    key == "displacement" || key == "displacement_l"
  }

  /**
   * The cc-to-litre heuristic: a displacement above 20 is taken to be in cubic
   * centimetres and divided by 1000; anything else is taken to be in litres.
   */
  function DisplacementLitres(x: real): (r: real)
    ensures x > 20.0 ==> r * 1000.0 == x
    ensures x <= 20.0 ==> r == x
  {
    if x > 20.0 then x / 1000.0 else x
  }

  /**
   * Every cc value up to 20000 and every litre value up to 20 comes out in
   * litres, at most 20; applying the rule again is harmless exactly for those.
   */
  lemma DisplacementLitresRange(x: real)
    ensures x <= 20000.0 ==> DisplacementLitres(x) <= 20.0
    ensures DisplacementLitres(DisplacementLitres(x)) == DisplacementLitres(x) <==> x <= 20000.0
  {
  }

  /**
   * The descriptor and entry a card is made from: a numeric displacement gets the
   * `displacement_l` descriptor and its value in litres; everything else gets its
   * catalog or fallback descriptor and keeps its value.
   */
  function Normalize(item: SpecItem): (r: (Descriptor, SpecEntry))
    ensures r.1.confidence == item.entry.confidence && r.1.source == item.entry.source
    ensures IsDisplacementKey(item.key) && item.entry.value.Num? ==>
      && r.0 == Descriptor("Displacement", "L", DisplacementIcon)
      && r.1.value.Num?
      && (item.entry.value.x > 20.0 ==> r.1.value.x * 1000.0 == item.entry.value.x)
      && (item.entry.value.x <= 20.0 ==> r.1.value == item.entry.value)
    ensures !IsDisplacementKey(item.key) || item.entry.value.Shown? ==>
      r.1 == item.entry && r.0 == LookupDescriptor(item.key)
  {
    if IsDisplacementKey(item.key) && item.entry.value.Num? then
      (Catalog["displacement_l"], item.entry.(value := Num(DisplacementLitres(item.entry.value.x))))
    else
      (LookupDescriptor(item.key), item.entry)
  }

  /** The spec as it stands after the loop body wrote the normalised value back into it. */
  function Normalized(item: SpecItem): SpecItem {
    SpecItem(item.key, Normalize(item).1)
  }

  datatype Card = Card(
    icon: Icon,
    name: string,
    valueText: string,
    unitText: string,
    sourceText: string,
    confidenceText: string)

  /** Numbers to one decimal, anything else verbatim. */
  function ValueText(v: SpecValue): (t: string)
    ensures v.Num? ==> ParseDecimal(t) == Some(ToFixed(v.x, 1))
    ensures v.Shown? ==> t == v.text
  {
    match v
    case Num(x) => ParseFixedText(ToFixed(x, 1)); FixedText(ToFixed(x, 1))
    case Shown(s) => s
  }

  /** ` ${unit}` when the unit is non-empty, otherwise nothing. */
  function UnitText(unit: string): (r: string)
    ensures unit == "" ==> r == ""
    ensures unit != "" ==> |r| == |unit| + 1 && r[0] == ' ' && r[1..] == unit
  {
    if unit == "" then "" else " " + unit
  }

  /** `spec.source || 'Unknown'`: a missing or empty source shows as "Unknown". */
  function SourceText(source: Option<string>): (r: string)
    ensures r != ""
    ensures source.Some? && source.value != "" ==> r == source.value
    ensures source.None? || source.value == "" ==> r == "Unknown"
  {
    match source
    case Some(s) => if s == "" then "Unknown" else s
    case None => "Unknown"
  }

  /** `(spec.confidence * 100).toFixed(0)`: a whole percentage. */
  function PercentText(confidence: real): (t: string)
    ensures ParseDecimal(t) == Some(ToFixed(confidence * 100.0, 0))
  {
    ParseFixedText(ToFixed(confidence * 100.0, 0));
    FixedText(ToFixed(confidence * 100.0, 0))
  }

  /** `createSpecCard`. */
  function CreateSpecCard(config: Descriptor, entry: SpecEntry): (c: Card)
    ensures c.icon == config.icon && c.name == config.name
    ensures c.unitText == UnitText(config.unit) && c.sourceText == SourceText(entry.source)
    ensures entry.value.Num? ==> ParseDecimal(c.valueText) == Some(ToFixed(entry.value.x, 1))
    ensures entry.value.Shown? ==> c.valueText == entry.value.text
    ensures c.unitText == "" <==> config.unit == ""
    ensures c.sourceText != ""
    ensures ParseDecimal(c.confidenceText) == Some(ToFixed(entry.confidence * 100.0, 0))
  {
    Card(config.icon, config.name, ValueText(entry.value), UnitText(config.unit),
         SourceText(entry.source), PercentText(entry.confidence))
  }

  /** The card the loop body of `displayEngineSpecs` appends for one entry. */
  function RenderSpec(item: SpecItem): (c: Card)
    ensures IsDisplacementKey(item.key) && item.entry.value.Num? ==>
      c.name == "Displacement" && c.unitText == " L" && c.icon == DisplacementIcon
    ensures !IsDisplacementKey(item.key) && item.key in Catalog ==>
      c.name == Catalog[item.key].name && c.icon == Catalog[item.key].icon
    ensures item.key !in Catalog ==>
      c.name == item.key && c.unitText == "" && c.icon == PlaceholderIcon
    ensures !(IsDisplacementKey(item.key) && item.entry.value.Num?) ==>
      c.unitText == UnitText(LookupDescriptor(item.key).unit)
    ensures IsDisplacementKey(item.key) && item.entry.value.Shown? ==>
      c.name == "Displacement" && c.unitText == " L" && c.icon == DisplacementIcon
      && c.valueText == item.entry.value.text
    ensures c.sourceText == SourceText(item.entry.source)
  {
    DisplacementEntries();
    var (config, entry) := Normalize(item);
    CreateSpecCard(config, entry)
  }

  /** Both displacement keys name the litre descriptor in the catalog. */
  lemma DisplacementEntries()
    ensures "displacement" in Catalog && Catalog["displacement"] == Descriptor("Displacement", "L", DisplacementIcon)
    ensures "displacement_l" in Catalog && Catalog["displacement_l"] == Descriptor("Displacement", "L", DisplacementIcon)
  {
  }

  /**
   * What a card's number texts mean: the value text of a number reads back as
   * that number rounded to one decimal (for a numeric displacement, the litre
   * value), and the confidence text reads back as a whole percentage.
   */
  lemma CardNumbers(item: SpecItem)
    ensures item.entry.value.Num? && !IsDisplacementKey(item.key) ==>
      ParseDecimal(RenderSpec(item).valueText) == Some(ToFixed(item.entry.value.x, 1))
    ensures item.entry.value.Num? && IsDisplacementKey(item.key) ==>
      ParseDecimal(RenderSpec(item).valueText) == Some(ToFixed(DisplacementLitres(item.entry.value.x), 1))
    ensures item.entry.value.Shown? ==> RenderSpec(item).valueText == item.entry.value.text
    ensures ParseDecimal(RenderSpec(item).confidenceText) == Some(ToFixed(item.entry.confidence * 100.0, 0))
  {
    var (_, e) := Normalize(item);
    if e.value.Num? {
      ParseFixedText(ToFixed(e.value.x, 1));
    }
    ParseFixedText(ToFixed(item.entry.confidence * 100.0, 0));
  }

  // ---- the whole grid ----

  /** The cards, in the order of the entries. */
  function RenderAll(items: seq<SpecItem>): (cards: seq<Card>)
    ensures |cards| == |items|
  {
    if items == [] then [] else RenderAll(items[..|items| - 1]) + [RenderSpec(items[|items| - 1])]
  }

  /** The entries after the loop has written the litre values back. */
  function NormalizeAll(items: seq<SpecItem>): seq<SpecItem> {
    if items == [] then [] else NormalizeAll(items[..|items| - 1]) + [Normalized(items[|items| - 1])]
  }

  /** One card per entry, in entry order, each made from its own entry alone. */
  lemma {:induction false} RenderAllAt(items: seq<SpecItem>)
    ensures |RenderAll(items)| == |items|
    ensures forall i :: 0 <= i < |items| ==> RenderAll(items)[i] == RenderSpec(items[i])
  {
    forall i | 0 <= i < |items| ensures RenderAll(items)[i] == RenderSpec(items[i]) {
      RenderAllIndex(items, i);
    }
  }

  lemma {:induction false} RenderAllIndex(items: seq<SpecItem>, i: nat)
    requires i < |items|
    ensures RenderAll(items)[i] == RenderSpec(items[i])
  {
    var init := items[..|items| - 1];
    if i < |init| {
      RenderAllIndex(init, i);
      assert items[i] == init[i];
    }
  }

  /** The write-back changes only values, entry by entry, and keeps keys and order. */
  lemma {:induction false} NormalizeAllAt(items: seq<SpecItem>)
    ensures |NormalizeAll(items)| == |items|
    ensures forall i :: 0 <= i < |items| ==> NormalizeAll(items)[i] == Normalized(items[i])
  {
    if items != [] {
      var init := items[..|items| - 1];
      NormalizeAllAt(init);
      forall i | 0 <= i < |init| ensures items[i] == init[i] { }
    }
  }

  // ---- the catalog lookup as the page writes it ----

  /** The properties every plain JavaScript object inherits from `Object.prototype`. */
  const InheritedMembers: set<string> := {
    "constructor", "hasOwnProperty", "isPrototypeOf", "propertyIsEnumerable",
    "toLocaleString", "toString", "valueOf", "__proto__",
    "__defineGetter__", "__defineSetter__", "__lookupGetter__", "__lookupSetter__"
  }

  /** What `specConfigs[key] || { name: key, ... }` evaluates to. */
  datatype Config = Own(descriptor: Descriptor) | Inherited | Made(descriptor: Descriptor)

  /** Property lookup on the catalog object: own entries, then the prototype chain, then the fallback. */
  function LookupAsWritten(key: string): (c: Config)
    ensures key in Catalog ==> c == Own(Catalog[key])
    ensures key !in Catalog && key in InheritedMembers ==> c == Inherited
    ensures key !in Catalog && key !in InheritedMembers ==> c == Made(Fallback(key))
  {
    if key in Catalog then Own(Catalog[key])
    else if key in InheritedMembers then Inherited
    else Made(Fallback(key))
  }

  /**
   * The loop body as the page writes it. An inherited member is a function or
   * `Object.prototype` itself, truthy and without an `icon`, so `createSpecCard`
   * throws a TypeError on `config.icon.startsWith`.
   */
  function RenderSpecAsWritten(item: SpecItem): (r: Result<Card, string>)
    ensures r.Err? <==> item.key in InheritedMembers
    ensures r.Ok? ==> r.value == RenderSpec(item)
    ensures r.Err? ==> Normalized(item) == item
  {
    InheritedNotInCatalog(item.key);
    if IsDisplacementKey(item.key) && item.entry.value.Num? then
      Ok(RenderSpec(item))
    else
      match LookupAsWritten(item.key)
      case Inherited => Err(IconError)
      case Own(d) => Ok(CreateSpecCard(d, item.entry))
      case Made(d) => Ok(CreateSpecCard(d, item.entry))
  }

  /** What the TypeError thrown by `config.icon.startsWith` says. */
  const IconError: string := "TypeError: cannot read 'startsWith' of undefined"

  /** No inherited member is a catalog key or a displacement key. */
  lemma InheritedNotInCatalog(key: string)
    ensures key in InheritedMembers ==> key !in Catalog && !IsDisplacementKey(key)
  {
  }

  /** A spec named "toString" makes the page's card rendering throw, where the fallback card was meant. */
  lemma InheritedKeyThrows(entry: SpecEntry)
    ensures RenderSpecAsWritten(SpecItem("toString", entry)).Err?
    ensures RenderSpec(SpecItem("toString", entry)).name == "toString"
    ensures RenderSpec(SpecItem("toString", entry)).icon == PlaceholderIcon
  {
    assert "toString" !in Catalog;
  }

  // ---- the grid as the page builds it ----

  /** What the page's `forEach` leaves: the cards appended before it stopped, and whether a card threw. */
  datatype Grid = Grid(cards: seq<Card>, failed: bool)

  /** No entry is named after an inherited member. */
  predicate NoInherited(items: seq<SpecItem>) {
    forall i :: 0 <= i < |items| ==> items[i].key !in InheritedMembers
  }

  /**
   * The page's loop over the entries with its own lookup: cards are appended
   * in order until the first card that throws; the exception ends the loop.
   */
  function RenderGrid(items: seq<SpecItem>): (g: Grid)
    ensures |g.cards| <= |items|
    ensures g.failed ==> |g.cards| < |items|
    ensures !g.failed ==> |g.cards| == |items|
  {
    if items == [] then Grid([], false)
    else
      var g := RenderGrid(items[..|items| - 1]);
      if g.failed then g
      else
        match RenderSpecAsWritten(items[|items| - 1])
        case Err(_) => Grid(g.cards, true)
        case Ok(c) => Grid(g.cards + [c], false)
  }

  /**
   * The page's grid is the intended grid of a prefix of the entries, none of
   * them inherited; when it stopped, it stopped at an inherited name.
   */
  lemma {:induction false} RenderGridPrefix(items: seq<SpecItem>)
    ensures RenderGrid(items).cards == RenderAll(items[..|RenderGrid(items).cards|])
    ensures NoInherited(items[..|RenderGrid(items).cards|])
    ensures RenderGrid(items).failed ==> items[|RenderGrid(items).cards|].key in InheritedMembers
  {
    if items != [] {
      var init := items[..|items| - 1];
      RenderGridPrefix(init);
      if RenderGrid(init).failed {
        GridFailedBefore(items);
      } else {
        assert init[..|RenderGrid(init).cards|] == init;
        if RenderSpecAsWritten(items[|items| - 1]).Ok? {
          GridAppendOk(items);
          assert items[..|items|] == items;
        } else {
          GridAppendErr(items);
        }
      }
    }
  }

  /** A loop that threw before the last entry ends as it was. */
  lemma GridFailedBefore(items: seq<SpecItem>)
    requires items != []
    requires var g := RenderGrid(items[..|items| - 1]);
      && g.failed
      && g.cards == RenderAll(items[..|items| - 1][..|g.cards|])
      && NoInherited(items[..|items| - 1][..|g.cards|])
      && items[..|items| - 1][|g.cards|].key in InheritedMembers
    ensures RenderGrid(items).cards == RenderAll(items[..|RenderGrid(items).cards|])
    ensures NoInherited(items[..|RenderGrid(items).cards|])
    ensures RenderGrid(items).failed ==> items[|RenderGrid(items).cards|].key in InheritedMembers
  {
    var init := items[..|items| - 1];
    var g := RenderGrid(init);
    assert RenderGrid(items) == g;
    assert items[..|g.cards|] == init[..|g.cards|];
    assert items[|g.cards|] == init[|g.cards|];
  }

  /** The last step of the page's loop, not having thrown before, when the last card renders. */
  lemma GridAppendOk(items: seq<SpecItem>)
    requires items != []
    requires RenderGrid(items[..|items| - 1]) == Grid(RenderAll(items[..|items| - 1]), false)
    requires NoInherited(items[..|items| - 1])
    requires RenderSpecAsWritten(items[|items| - 1]).Ok?
    ensures RenderGrid(items) == Grid(RenderAll(items), false)
    ensures NoInherited(items)
  {
    var last := items[|items| - 1];
    assert RenderSpecAsWritten(last).value == RenderSpec(last);
    NoInheritedSnoc(items);
  }

  lemma NoInheritedSnoc(items: seq<SpecItem>)
    requires items != []
    requires NoInherited(items[..|items| - 1])
    requires items[|items| - 1].key !in InheritedMembers
    ensures NoInherited(items)
  {
    var init := items[..|items| - 1];
    forall i | 0 <= i < |items| ensures items[i].key !in InheritedMembers {
      if i < |init| { assert items[i] == init[i]; }
    }
  }

  /** The last step of the page's loop, not having thrown before, when the last card throws. */
  lemma GridAppendErr(items: seq<SpecItem>)
    requires items != []
    requires RenderGrid(items[..|items| - 1]) == Grid(RenderAll(items[..|items| - 1]), false)
    requires RenderSpecAsWritten(items[|items| - 1]).Err?
    ensures RenderGrid(items) == Grid(RenderAll(items[..|items| - 1]), true)
    ensures items[|items| - 1].key in InheritedMembers
  {
  }

  /** A loop that did not throw made the intended card of every entry. */
  lemma RenderGridWhole(items: seq<SpecItem>)
    requires !RenderGrid(items).failed
    ensures RenderGrid(items).cards == RenderAll(items)
  {
    var g := RenderGrid(items);
    RenderGridPrefix(items);
    assert items[..|g.cards|] == items;
  }

  /** Without an inherited name the page renders every entry, exactly as intended. */
  lemma {:induction false} RenderGridClean(items: seq<SpecItem>)
    requires NoInherited(items)
    ensures RenderGrid(items) == Grid(RenderAll(items), false)
  {
    if items != [] {
      var init := items[..|items| - 1];
      assert NoInherited(init) by {
        forall i | 0 <= i < |init| ensures init[i].key !in InheritedMembers {
          assert init[i] == items[i];
        }
      }
      RenderGridClean(init);
    }
  }

  /** Once the loop has thrown, later entries change nothing. */
  lemma {:induction false} RenderGridStays(items: seq<SpecItem>, i: nat)
    requires i <= |items| && RenderGrid(items[..i]).failed
    ensures RenderGrid(items) == RenderGrid(items[..i])
  {
    if i < |items| {
      var init := items[..|items| - 1];
      assert init[..i] == items[..i];
      RenderGridStays(init, i);
    } else {
      assert items[..i] == items;
    }
  }
}
