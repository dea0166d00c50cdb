/** The row formatter of `src/to_csv.py`: a decoded METAR report becomes one
    comma-joined CSV line. Optional numbers become `null` when absent, weather
    and cloud categories are abbreviated to their METAR codes (code form FM 15
    of WMO-No. 306), the weather list is flattened to four columns and the
    cloud list to four slots of three columns.

    Everything here follows the code as written, including three places where
    the row does not match its own header:
    - the weather columns come from the LAST of the first three entries;
    - a missing cloud slot `null,null,null` carries no trailing comma, so a row
      has the header's 30 fields only when the report has exactly 3 layers;
    - an unknown cloud cover maps to Python `None`, which prints as `None`. */
module RowFormatter {
  import opened Options
  import opened Decimal
  import opened CsvText
  import opened LineSplitter

  /** One weather group as the decoder reports it: four optional plain-English words. */
  datatype Weather = Weather(
    intensity: Option<string>,
    description: Option<string>,
    precipitation: Option<string>,
    obscuration: Option<string>)

  /** One cloud layer: plain-English cover, height in feet, cloud type. */
  datatype Cloud = Cloud(cover: Option<string>, heightInFeet: Option<real>, cloudType: Option<string>)

  /** The fields of a decoded report that the row uses (units already converted
      by the decoder: degrees, knots, metres, Celsius, inches of mercury). */
  datatype Report = Report(
    year: int, month: int, day: int, hour: int, minute: int,
    station: string,
    windDirection: Option<real>, windSpeed: Option<real>, windGust: Option<real>,
    visibility: Option<real>, cavok: bool,
    weathers: seq<Weather>,
    clouds: seq<Cloud>,
    temperature: Option<real>, dewpoint: Option<real>, pressure: Option<real>)

  const Header: seq<string> := [
    "Year", "Month", "Day", "Hour", "Minute", "Station",
    "Wind_direction", "Wind_speed", "Wind_gust", "Visibility", "Cavok",
    "Weather_intensity", "Weather_description", "Weather_precipitation", "Weather_obscuration",
    "Sky_layer1_cover", "Sky_layer1_height", "Sky_layer1_cloud",
    "Sky_layer2_cover", "Sky_layer2_height", "Sky_layer2_cloud",
    "Sky_layer3_cover", "Sky_layer3_height", "Sky_layer3_cloud",
    "Sky_layer4_cover", "Sky_layer4_height", "Sky_layer4_cloud",
    "Temperature", "Dewpoint", "Pressure"]


  // ---------------------------------------------------------------- numbers

  /** `num_to_str(num, sig)`: `null` for a missing value, otherwise the value
      printed with one decimal when `sig == 1` and with two for any other `sig`. */
  function NumToStr(num: Option<real>, sig: int): (s: string)
    ensures NoComma(s)
    ensures s == "null" <==> num.None?
  {
    match num
    case None => "null"
    case Some(x) =>
      var d := if sig == 1 then 1 else 2;
      FixedTextPlain(FormatFixed(x, d), d);
      FormatFixed(x, d)
  }

  /** A present value prints as fixed-point text with one decimal for `sig == 1`
      and two otherwise, reading back as the value rounded half-even to that many
      decimals. */
  lemma NumToStrValue(x: real, sig: int)
    ensures var d := if sig == 1 then 1 else 2;
      && IsFixedText(NumToStr(Some(x), sig), d)
      && FixedValue(NumToStr(Some(x), sig), d) == RoundedTo(x, d)
  {
    FormatFixedValue(x, if sig == 1 then 1 else 2);
  }

  // ------------------------------------------------------- weather categories

  const IntensityCodes: map<string, string> := map["nearby" := "VC"]
  const DescriptionCodes: map<string, string> := map["thunderstorm" := "TS", "showers" := "SH"]
  const PrecipitationCodes: map<string, string> := map["rain" := "RA", "drizzle" := "DZ"]
  const ObscurationCodes: map<string, string> := map["fog" := "FG", "mist" := "BR"]

  /** A pass-through lookup: a listed word becomes its code, anything else
      (an unlisted word or `None`) is returned unchanged. */
  function Abbreviate(table: map<string, string>, o: Option<string>): Option<string>
  {
    if o.Some? && o.value in table then Some(table[o.value]) else o
  }

  /** `process_intensity`. */
  function ProcessIntensity(i: Option<string>): (r: Option<string>)
    ensures r == Abbreviate(IntensityCodes, i)
  {
    match i
    case Some("nearby") => Some("VC")
    case _ => i
  }

  /** `process_description`. */
  function ProcessDescription(d: Option<string>): (r: Option<string>)
    ensures r == Abbreviate(DescriptionCodes, d)
  {
    match d
    case Some("thunderstorm") => Some("TS")
    case Some("showers") => Some("SH")
    case _ => d
  }

  /** `process_precipitation`. */
  function ProcessPrecipitation(p: Option<string>): (r: Option<string>)
    ensures r == Abbreviate(PrecipitationCodes, p)
  {
    match p
    case Some("rain") => Some("RA")
    case Some("drizzle") => Some("DZ")
    case _ => p
  }

  /** `process_obscuration`. */
  function ProcessObscuration(o: Option<string>): (r: Option<string>)
    ensures r == Abbreviate(ObscurationCodes, o)
  {
    match o
    case Some("fog") => Some("FG")
    case Some("mist") => Some("BR")
    case _ => o
  }

  /** A table none of whose codes is itself a key abbreviates idempotently. */
  lemma AbbreviateIdempotent(table: map<string, string>, o: Option<string>)
    requires forall k :: k in table ==> table[k] !in table
    ensures Abbreviate(table, Abbreviate(table, o)) == Abbreviate(table, o)
  {
  }

  /** No weather code is itself a word of its table, so mapping twice is mapping once. */
  lemma WeatherMapsIdempotent(o: Option<string>)
    ensures ProcessIntensity(ProcessIntensity(o)) == ProcessIntensity(o)
    ensures ProcessDescription(ProcessDescription(o)) == ProcessDescription(o)
    ensures ProcessPrecipitation(ProcessPrecipitation(o)) == ProcessPrecipitation(o)
    ensures ProcessObscuration(ProcessObscuration(o)) == ProcessObscuration(o)
  {
    AbbreviateIdempotent(IntensityCodes, o);
    AbbreviateIdempotent(DescriptionCodes, o);
    AbbreviateIdempotent(PrecipitationCodes, o);
    AbbreviateIdempotent(ObscurationCodes, o);
  }

  /** The four columns one weather group prints: each mapped value through the
      f-string, so a missing value prints as `None`. */
  function WeatherValues(w: Weather): seq<string>
  {
    [ Render(ProcessIntensity(w.intensity)), Render(ProcessDescription(w.description)),
      Render(ProcessPrecipitation(w.precipitation)), Render(ProcessObscuration(w.obscuration)) ]
  }

  /** The weather columns `process_weather` leaves behind: the placeholders for
      an empty list, otherwise the columns of entry `min(|ws|, 3) - 1`, since
      each of the first three entries overwrites the previous one. */
  function WeatherColumns(ws: seq<Weather>): (r: seq<string>)
    ensures |r| == 4
  {
    if ws == [] then ["null", "null", "null", "null"] else WeatherValues(ws[Min(|ws|, 3) - 1])
  }

  /** `process_weather`: loops over the indices 0, 1, 2, replacing all four
      columns with those of the entry there, and stops at the first missing index. */
  method ProcessWeather(ws: seq<Weather>) returns (s: string)
    ensures s == Join(WeatherColumns(ws))
    ensures ws == [] ==> s == "null,null,null,null"
  {
    var ints, desc, prec, obsc := Some("null"), Some("null"), Some("null"), Some("null");
    var i := 0;
    while i < 3
      invariant 0 <= i <= 3 && i <= |ws|
      invariant [Render(ints), Render(desc), Render(prec), Render(obsc)]
             == if i == 0 then ["null", "null", "null", "null"] else WeatherValues(ws[i - 1])
    {
      if i >= |ws| {
        break;
      }
      var w := ws[i];
      ints := ProcessIntensity(w.intensity);
      desc := ProcessDescription(w.description);
      prec := ProcessPrecipitation(w.precipitation);
      obsc := ProcessObscuration(w.obscuration);
      i := i + 1;
    }
    assert i == Min(|ws|, 3);
    s := Render(ints) + "," + Render(desc) + "," + Render(prec) + "," + Render(obsc);
    JoinFour(Render(ints), Render(desc), Render(prec), Render(obsc));
  }

  /** Only the first three entries are ever consulted. */
  lemma WeatherIgnoresLaterEntries(ws: seq<Weather>, ws': seq<Weather>)
    requires ws[..Min(|ws|, 3)] == ws'[..Min(|ws'|, 3)]
    ensures WeatherColumns(ws) == WeatherColumns(ws')
  {
    var k := Min(|ws|, 3);
    assert k == Min(|ws'|, 3) by { assert |ws[..k]| == k; }
    if k > 0 {
      assert ws[k - 1] == ws[..k][k - 1];
      assert ws'[k - 1] == ws'[..k][k - 1];
    }
  }

  /** The columns are those of a single entry, the last of the first three;
      the entries before it are overwritten and leave no trace. */
  lemma WeatherFromOneEntry(ws: seq<Weather>)
    requires ws != []
    ensures WeatherColumns(ws) == WeatherColumns([ws[Min(|ws|, 3) - 1]])
    ensures WeatherColumns(ws) == WeatherValues(ws[Min(|ws|, 3) - 1])
  {
  }

  /** Text without commas in the weather words gives exactly four weather fields. */
  lemma WeatherFields(ws: seq<Weather>)
    requires forall w :: w in ws ==> WeatherNoComma(w)
    ensures Split(Join(WeatherColumns(ws))) == WeatherColumns(ws)
  {
    var cols := WeatherColumns(ws);
    if ws != [] {
      WeatherValuesNoComma(ws[Min(|ws|, 3) - 1]);
    }
    SplitJoinRoundTrip(cols);
  }

  predicate OptionNoComma(o: Option<string>)
  {
    o.Some? ==> NoComma(o.value)
  }

  predicate WeatherNoComma(w: Weather)
  {
    && OptionNoComma(w.intensity) && OptionNoComma(w.description)
    && OptionNoComma(w.precipitation) && OptionNoComma(w.obscuration)
  }

  lemma AbbreviatedNoComma(table: map<string, string>, o: Option<string>)
    requires forall k :: k in table ==> NoComma(table[k])
    requires OptionNoComma(o)
    ensures NoComma(Render(Abbreviate(table, o)))
  {
  }

  lemma WeatherValuesNoComma(w: Weather)
    requires WeatherNoComma(w)
    ensures forall i :: 0 <= i < 4 ==> NoComma(WeatherValues(w)[i])
  {
    AbbreviatedNoComma(IntensityCodes, w.intensity);
    AbbreviatedNoComma(DescriptionCodes, w.description);
    AbbreviatedNoComma(PrecipitationCodes, w.precipitation);
    AbbreviatedNoComma(ObscurationCodes, w.obscuration);
  }

  // ---------------------------------------------------------------- CAVOK

  /** `cavok_to_bin`. */
  function CavokToBin(cavok: bool): (s: string)
    ensures s == "1" <==> cavok
    ensures s == "0" <==> !cavok
  {
    if cavok then "1" else "0"
  }

  // ---------------------------------------------------------------- clouds

  const CoverCodes: map<string, string> := map[
    "a few" := "FEW", "scattered" := "SCT", "broken" := "BKN",
    "overcast" := "OVC", "indefinite ceiling" := "VV", "clear" := "NSC"]

  /** `process_cover`: one of the six cover phrases to its code; any other
      text falls off the end of the `match` and yields `None`. */
  function ProcessCover(c: string): (r: Option<string>)
    ensures r.Some? <==> c in CoverCodes
    ensures r.Some? ==> r.value == CoverCodes[c]
  {
    match c
    case "a few" => Some("FEW")
    case "scattered" => Some("SCT")
    case "broken" => Some("BKN")
    case "overcast" => Some("OVC")
    case "indefinite ceiling" => Some("VV")
    case "clear" => Some("NSC")
    case _ => None
  }

  /** The three columns one cloud layer prints: cover code, height, type. */
  function CloudValues(c: Cloud): seq<string>
  {
    [Render(ProcessCover(OrNull(c.cover))), NumToStr(c.heightInFeet, 1), OrNull(c.cloudType)]
  }

  /** `process_cloud_layer`: cover code, height and type joined by commas. */
  function ProcessCloudLayer(c: Cloud): (r: string)
    ensures r == Join(CloudValues(c))
  {
    var v := CloudValues(c);
    JoinThree(v[0], v[1], v[2]);
    assert v == [v[0], v[1], v[2]];
    v[0] + "," + v[1] + "," + v[2]
  }

  /** A CSV reader sees exactly the three layer columns in the layer text, whose
      commas are the two separators plus any inside the cloud type. */
  lemma CloudLayerFields(c: Cloud)
    ensures NoComma(OrNull(c.cloudType)) ==> Split(ProcessCloudLayer(c)) == CloudValues(c)
    ensures Commas(ProcessCloudLayer(c)) == 2 + Commas(OrNull(c.cloudType))
  {
    var v := CloudValues(c);
    CoverFieldNoComma(c);
    CommasNone(v[0]);
    CommasNone(v[1]);
    CommasAppend(v[0] + "," + v[1] + ",", v[2]);
    CommasAppend(v[0] + "," + v[1], ",");
    CommasAppend(v[0] + ",", v[1]);
    CommasAppend(v[0], ",");
    if NoComma(v[2]) {
      CloudValuesNoComma(c);
      SplitJoinRoundTrip(v);
    }
  }

  lemma CoverFieldNoComma(c: Cloud)
    ensures NoComma(Render(ProcessCover(OrNull(c.cover))))
  {
  }

  lemma CloudValuesNoComma(c: Cloud)
    requires NoComma(OrNull(c.cloudType))
    ensures forall i :: 0 <= i < 3 ==> NoComma(CloudValues(c)[i])
  {
    CoverFieldNoComma(c);
  }

  /** The cover column is a METAR code for the six known phrases and the text
      `None` otherwise: for an absent or empty cover (replaced by `null` first)
      and for any phrase outside the table. */
  lemma CoverColumn(c: Cloud)
    ensures Truthy(c.cover) && c.cover.value in CoverCodes ==>
      CloudValues(c)[0] == CoverCodes[c.cover.value]
    ensures !(Truthy(c.cover) && c.cover.value in CoverCodes) ==>
      CloudValues(c)[0] == "None"
  {
    assert "null" !in CoverCodes;
  }

  /** The height column is `null` exactly when the height is absent; the type
      column is the type itself when it is non-empty and `null` otherwise. */
  lemma HeightAndTypeColumns(c: Cloud)
    ensures CloudValues(c)[1] == "null" <==> c.heightInFeet.None?
    ensures Truthy(c.cloudType) ==> CloudValues(c)[2] == c.cloudType.value
    ensures !Truthy(c.cloudType) ==> CloudValues(c)[2] == "null"
  {
  }

  /** The text `process_cloud_layer` gives each layer, in order. */
  function LayerTexts(cs: seq<Cloud>): (r: seq<string>)
    ensures |r| == |cs|
  {
    seq(|cs|, i requires 0 <= i < |cs| => ProcessCloudLayer(cs[i]))
  }

  /** The text written for a missing cloud layer. */
  const Pad: string := "null,null,null"

  /** What slot `i` appends: a present layer followed by a comma, or the
      padding with no comma after it. */
  function Slot(texts: seq<string>, i: nat, pad: string): string
  {
    if i < |texts| then texts[i] + "," else pad
  }

  /** The text of slots `0 .. n-1`, in order. */
  function Slots(texts: seq<string>, n: nat, pad: string): string
  {
    if n == 0 then "" else Slots(texts, n - 1, pad) + Slot(texts, n - 1, pad)
  }

  /** The cloud block: four slots over the layers of the report. */
  function CloudColumns(cs: seq<Cloud>): string
  {
    Slots(LayerTexts(cs), 4, Pad)
  }

  /** `process_clouds`: four slots, each either a layer or the padding. */
  method ProcessClouds(cs: seq<Cloud>) returns (s: string)
    ensures s == CloudColumns(cs)
  {
    s := "";
    var i := 0;
    while i < 4
      invariant 0 <= i <= 4
      invariant s == Slots(LayerTexts(cs), i, Pad)
    {
      if i < |cs| {
        s := s + (ProcessCloudLayer(cs[i]) + ",");
      } else {
        s := s + Pad;
      }
      i := i + 1;
    }
  }

  /** Layer texts, each followed by a comma, in their original order. */
  function LayersText(texts: seq<string>): string
  {
    if texts == [] then "" else LayersText(texts[..|texts| - 1]) + (texts[|texts| - 1] + ",")
  }

  /** `n` copies of the padding, glued together with no separator. */
  function Pads(pad: string, n: nat): string
  {
    if n == 0 then "" else Pads(pad, n - 1) + pad
  }

  /** The slots hold the first `min(n, |texts|)` layers in order, then one
      padding per missing layer; layers past slot `n` are ignored. */
  lemma {:induction false} SlotsLayout(texts: seq<string>, n: nat, pad: string)
    ensures Slots(texts, n, pad) == LayersText(texts[..Min(n, |texts|)]) + Pads(pad, n - Min(n, |texts|))
  {
    if n > 0 {
      var k := Min(n - 1, |texts|);
      SlotsLayout(texts, n - 1, pad);
      if n - 1 < |texts| {
        assert texts[..n][..n - 1] == texts[..n - 1];
        assert LayersText(texts[..n]) == LayersText(texts[..n - 1]) + (texts[n - 1] + ",");
        assert Pads(pad, n - Min(n, |texts|)) == Pads(pad, 0) == "";
        assert Slots(texts, n, pad) == LayersText(texts[..n - 1]) + "" + (texts[n - 1] + ",");
      } else {
        assert Min(n, |texts|) == k == |texts|;
        assert Pads(pad, n - k) == Pads(pad, n - 1 - k) + pad;
      }
    }
  }

  /** The cloud block is the first `min(|cs|, 4)` layers in order, then one
      padding triple per missing layer. */
  lemma CloudLayout(cs: seq<Cloud>)
    ensures var k := Min(|cs|, 4); CloudColumns(cs) == LayersText(LayerTexts(cs)[..k]) + Pads(Pad, 4 - k)
  {
    var texts := LayerTexts(cs);
    SlotsLayout(texts, 4, Pad);
  }

  /** The padding triple as a reader sees it: three `null` fields, two commas. */
  lemma PadFields()
    ensures Split(Pad) == ["null", "null", "null"]
    ensures Commas(Pad) == 2
  {
    assert Pad == "null" + "," + "null" + "," + "null";
    assert NoComma("null");
    ThreeFields("null", "null", "null");
  }

  /** Two pads meet without a separator: the reader sees five fields, the middle
      one `nullnull`, where the header expects six. */
  lemma FusedPads()
    ensures Split(Pad + Pad) == ["null", "null", "nullnull", "null", "null"]
  {
    assert Pad == "null" + "," + "null" + "," + "null";
    assert NoComma("null");
    FusedTriples("null", "null", "null");
    assert "null" + "null" == "nullnull";
  }

  /** A report without cloud layers gets four pads fused together: nine fields
      where the header expects twelve. */
  lemma NoLayersBlock()
    ensures CloudColumns([]) == Pad + Pad + Pad + Pad
    ensures Commas(CloudColumns([])) == 8
    ensures |Split(CloudColumns([]))| == 9
  {
    CloudLayout([]);
    assert LayerTexts([]) == [] && LayersText([]) == "";
    FourCopies(Pad);
    PadFields();
    PadsCommas(Pad, 4);
    SplitLength(CloudColumns([]));
  }

  lemma FourCopies(pad: string)
    ensures Pads(pad, 4) == pad + pad + pad + pad
  {
    assert Pads(pad, 1) == "" + pad == pad;
    assert Pads(pad, 2) == pad + pad;
    assert Pads(pad, 3) == pad + pad + pad;
  }

  /** Only the first four layers are ever consulted. */
  lemma CloudsIgnoreLaterLayers(cs: seq<Cloud>, cs': seq<Cloud>)
    requires cs[..Min(|cs|, 4)] == cs'[..Min(|cs'|, 4)]
    ensures CloudColumns(cs) == CloudColumns(cs')
  {
    var k := Min(|cs|, 4);
    assert k == Min(|cs'|, 4) by { assert |cs[..k]| == k; }
    CloudLayout(cs);
    CloudLayout(cs');
    assert LayerTexts(cs)[..k] == LayerTexts(cs')[..k] by {
      forall i | 0 <= i < k ensures LayerTexts(cs)[i] == LayerTexts(cs')[i] {
        assert cs[i] == cs[..k][i] && cs'[i] == cs'[..k][i];
      }
    }
  }

  predicate CloudTypesNoComma(cs: seq<Cloud>)
  {
    forall i :: 0 <= i < |cs| ==> NoComma(OrNull(cs[i].cloudType))
  }

  lemma {:induction false} LayersTextCommas(texts: seq<string>)
    requires forall i :: 0 <= i < |texts| ==> Commas(texts[i]) == 2
    ensures Commas(LayersText(texts)) == 3 * |texts|
  {
    if texts != [] {
      var last := texts[|texts| - 1];
      LayersTextCommas(texts[..|texts| - 1]);
      CommasAppend(LayersText(texts[..|texts| - 1]), last + ",");
      CommasAppend(last, ",");
    }
  }

  lemma {:induction false} PadsCommas(pad: string, n: nat)
    requires Commas(pad) == 2
    ensures Commas(Pads(pad, n)) == 2 * n
  {
    if n > 0 {
      PadsCommas(pad, n - 1);
      CommasAppend(Pads(pad, n - 1), pad);
    }
  }

  /** Each layer text holds two commas when its cloud type holds none. */
  lemma LayerTextsCommas(cs: seq<Cloud>)
    requires CloudTypesNoComma(cs)
    ensures forall i :: 0 <= i < |cs| ==> Commas(LayerTexts(cs)[i]) == 2
  {
    forall i | 0 <= i < |cs| ensures Commas(LayerTexts(cs)[i]) == 2 {
      CloudLayerFields(cs[i]);
      CommasNone(OrNull(cs[i].cloudType));
    }
  }

  /** `k` layer texts of two commas each, then `4 - k` pads of two commas each. */
  lemma BlockCommas(texts: seq<string>, k: nat, pad: string)
    requires k <= 4 && |texts| == k && Commas(pad) == 2
    requires forall i :: 0 <= i < k ==> Commas(texts[i]) == 2
    ensures Commas(LayersText(texts) + Pads(pad, 4 - k)) == 8 + k
  {
    LayersTextCommas(texts);
    PadsCommas(pad, 4 - k);
    CommasAppend(LayersText(texts), Pads(pad, 4 - k));
  }

  /** Four slots over layer texts and padding of two commas each hold
      `8 + min(k, 4)` commas. */
  lemma SlotsCommas(texts: seq<string>, pad: string)
    requires Commas(pad) == 2
    requires forall i :: 0 <= i < |texts| ==> Commas(texts[i]) == 2
    ensures Commas(Slots(texts, 4, pad)) == 8 + Min(|texts|, 4)
  {
    var k := Min(|texts|, 4);
    SlotsLayout(texts, 4, pad);
    assert forall i :: 0 <= i < k ==> texts[..k][i] == texts[i];
    BlockCommas(texts[..k], k, pad);
  }

  /** With `k` layers the cloud block holds `8 + min(k, 4)` commas: two inside
      each layer plus its trailing one, two inside each padding triple. */
  lemma CloudCommas(cs: seq<Cloud>)
    requires CloudTypesNoComma(cs)
    ensures Commas(CloudColumns(cs)) == 8 + Min(|cs|, 4)
  {
    LayerTextsCommas(cs);
    PadFields();
    SlotsCommas(LayerTexts(cs), Pad);
  }

  /** A reader splitting a run of layer texts followed by any text sees the
      fields of each layer and then the fields of that text. */
  lemma {:induction false} LayersTextSplit(texts: seq<string>, rest: string)
    ensures Split(LayersText(texts) + rest) == SplitAll(texts) + Split(rest)
  {
    if texts == [] {
      assert LayersText(texts) + rest == rest;
    } else {
      var init, last := texts[..|texts| - 1], texts[|texts| - 1];
      assert LayersText(texts) == LayersText(init) + (last + ",");
      assert LayersText(texts) + rest == LayersText(init) + (last + "," + rest);
      LayersTextSplit(init, last + "," + rest);
      SplitAppend(last, rest);
      assert SplitAll(texts) == SplitAll(init) + Split(last);
    }
  }

  /** Three layer texts and one pad split into the three layers' fields, then the pad's. */
  lemma ThreeLayersSplit(texts: seq<string>, pad: string)
    requires |texts| == 3
    ensures Split(LayersText(texts) + Pads(pad, 1))
         == Split(texts[0]) + Split(texts[1]) + Split(texts[2]) + Split(pad)
  {
    LayersTextSplit(texts, Pads(pad, 1));
    assert Pads(pad, 1) == pad;
    assert texts[..2] == texts[..2][..1] + [texts[1]] && texts[..2][..1] == [texts[0]];
    assert texts[..1] == [texts[0]] && texts == texts[..2] + [texts[2]];
    assert SplitAll(texts) == SplitAll(texts[..2]) + Split(texts[2]);
    assert SplitAll(texts[..2]) == SplitAll([texts[0]]) + Split(texts[1]);
    SplitAllOne(texts[0]);
  }

  /** Four slots over three layer texts split into the layers' fields, then the pad's. */
  lemma SlotsThreeSplit(texts: seq<string>, pad: string)
    requires |texts| == 3
    ensures Split(Slots(texts, 4, pad))
         == Split(texts[0]) + Split(texts[1]) + Split(texts[2]) + Split(pad)
  {
    SlotsLayout(texts, 4, pad);
    assert texts[..3] == texts;
    ThreeLayersSplit(texts, pad);
  }

  /** With exactly three layers the cloud block splits into the twelve columns
      the header announces: three per layer, in order, then one padding triple. */
  lemma CloudFieldsThreeLayers(cs: seq<Cloud>)
    requires |cs| == 3 && CloudTypesNoComma(cs)
    ensures Split(CloudColumns(cs))
         == CloudValues(cs[0]) + CloudValues(cs[1]) + CloudValues(cs[2]) + ["null", "null", "null"]
  {
    var texts := LayerTexts(cs);
    SlotsThreeSplit(texts, Pad);
    PadFields();
    CloudLayerFields(cs[0]);
    CloudLayerFields(cs[1]);
    CloudLayerFields(cs[2]);
  }

  // ---------------------------------------------------------------- the row

  /** The eleven values `metar_to_csv` writes before the weather block. */
  function LeadValues(m: Report): (r: seq<string>)
    ensures |r| == 11
  {
    [ IntToString(m.year), IntToString(m.month), IntToString(m.day),
      IntToString(m.hour), IntToString(m.minute), m.station,
      NumToStr(m.windDirection, 1), NumToStr(m.windSpeed, 1), NumToStr(m.windGust, 1),
      NumToStr(m.visibility, 1), CavokToBin(m.cavok) ]
  }

  /** The three values it writes after the cloud block; only pressure has two decimals. */
  function TailValues(m: Report): (r: seq<string>)
    ensures |r| == 3
  {
    [NumToStr(m.temperature, 1), NumToStr(m.dewpoint, 1), NumToStr(m.pressure, 2)]
  }

  /** The sixteen pieces `metar_to_csv` writes, separated by commas, in order. */
  function RowPieces(m: Report): (r: seq<string>)
    ensures |r| == 16
  {
    LeadValues(m) + [Join(WeatherColumns(m.weathers)), CloudColumns(m.clouds)] + TailValues(m)
  }

  /** The row text without its final newline. */
  function RowBody(m: Report): string
  {
    Join(RowPieces(m))
  }

  /** `metar_to_csv`: builds the row piece by piece and ends it with a newline. */
  method MetarToCsv(m: Report) returns (s: string)
    ensures s == RowBody(m) + "\n"
    ensures |s| >= 1 && s[|s| - 1] == '\n'
  {
    var lead := LeadValues(m);
    var tail := TailValues(m);
    s := "";
    s := s + lead[0];
    assert s == lead[0];
    s := s + "," + lead[1];
    s := s + "," + lead[2];
    s := s + "," + lead[3];
    s := s + "," + lead[4];
    s := s + "," + lead[5];
    s := s + "," + lead[6];
    s := s + "," + lead[7];
    s := s + "," + lead[8];
    s := s + "," + lead[9];
    s := s + "," + lead[10];
    var weather := ProcessWeather(m.weathers);
    s := s + "," + weather;
    var clouds := ProcessClouds(m.clouds);
    s := s + "," + clouds;
    s := s + "," + tail[0];
    s := s + "," + tail[1];
    s := s + "," + tail[2];
    ghost var row := lead + [weather, clouds] + tail;
    assert row == RowPieces(m);
    PiecesInOrder(lead, weather, clouds, tail);
    JoinSixteen(row);
    assert s == Join(row);
    s := s + "\n";
  }

  /** Sixteen pieces laid out as eleven, two and three, read one by one. */
  lemma PiecesInOrder(lead: seq<string>, weather: string, clouds: string, tail: seq<string>)
    requires |lead| == 11 && |tail| == 3
    ensures lead + [weather, clouds] + tail
         == [ lead[0], lead[1], lead[2], lead[3], lead[4], lead[5], lead[6], lead[7],
              lead[8], lead[9], lead[10], weather, clouds, tail[0], tail[1], tail[2] ]
  {
  }

  // ------------------------------------------------- the row against the header

  /** Report text in which no free-form value holds a comma: the station, the
      weather words and the cloud types (codes and numbers never do). */
  predicate TextNoComma(m: Report)
  {
    && NoComma(m.station)
    && (forall w :: w in m.weathers ==> WeatherNoComma(w))
    && CloudTypesNoComma(m.clouds)
  }

  /** The three columns the header announces for cloud slot `i`. */
  function SlotValues(cs: seq<Cloud>, i: nat): seq<string>
  {
    if i < |cs| then CloudValues(cs[i]) else ["null", "null", "null"]
  }

  /** The thirty values the header announces, one per header column, in order. */
  function HeaderColumns(m: Report): (r: seq<string>)
    ensures |r| == |Header|
  {
    LeadValues(m) + WeatherColumns(m.weathers)
      + SlotValues(m.clouds, 0) + SlotValues(m.clouds, 1)
      + SlotValues(m.clouds, 2) + SlotValues(m.clouds, 3)
      + TailValues(m)
  }

  lemma LeadNoComma(m: Report)
    requires NoComma(m.station)
    ensures forall i :: 0 <= i < 11 ==> NoComma(LeadValues(m)[i])
  {
    var p := LeadValues(m);
    IntToStringRoundTrip(m.year);
    IntToStringRoundTrip(m.month);
    IntToStringRoundTrip(m.day);
    IntToStringRoundTrip(m.hour);
    IntToStringRoundTrip(m.minute);
    assert NoComma(p[0]) && NoComma(p[1]) && NoComma(p[2]) && NoComma(p[3]) && NoComma(p[4]);
    assert NoComma(p[5]) && NoComma(p[6]) && NoComma(p[7]) && NoComma(p[8]);
    assert NoComma(p[9]) && NoComma(p[10]);
  }

  lemma TailNoComma(m: Report)
    ensures forall i :: 0 <= i < 3 ==> NoComma(TailValues(m)[i])
  {
  }

  /** A reader splitting the row body sees the eleven leading values, the
      weather columns, the fields of the cloud block, and the three trailing values. */
  lemma RowSplit(m: Report)
    requires TextNoComma(m)
    ensures Split(RowBody(m))
         == LeadValues(m) + WeatherColumns(m.weathers) + Split(CloudColumns(m.clouds)) + TailValues(m)
  {
    LeadNoComma(m);
    TailNoComma(m);
    SplitAround(LeadValues(m), Join(WeatherColumns(m.weathers)), CloudColumns(m.clouds), TailValues(m));
    WeatherFields(m.weathers);
  }

  /** With `k` cloud layers the row holds `26 + min(k, 4)` commas, so a reader
      sees `27 + min(k, 4)` fields against the header's 30. */
  lemma RowCommas(m: Report)
    requires TextNoComma(m)
    ensures Commas(RowBody(m)) == 26 + Min(|m.clouds|, 4)
    ensures |Split(RowBody(m))| == 27 + Min(|m.clouds|, 4)
  {
    RowSplit(m);
    CloudCommas(m.clouds);
    SplitLength(CloudColumns(m.clouds));
    SplitLength(RowBody(m));
  }

  /** With three cloud layers the row's fields are the thirty values the
      header announces, in order. */
  lemma RowMatchesHeaderThreeLayers(m: Report)
    requires TextNoComma(m) && |m.clouds| == 3
    ensures Split(RowBody(m)) == HeaderColumns(m)
  {
    var cs := m.clouds;
    RowSplit(m);
    CloudFieldsThreeLayers(cs);
    HeaderColumnsThreeLayers(m);
  }

  /** With three cloud layers the header's cloud columns are the three layers'
      values and one padding triple. */
  lemma HeaderColumnsThreeLayers(m: Report)
    requires |m.clouds| == 3
    ensures HeaderColumns(m)
         == LeadValues(m) + WeatherColumns(m.weathers)
            + (CloudValues(m.clouds[0]) + CloudValues(m.clouds[1]) + CloudValues(m.clouds[2])
               + ["null", "null", "null"])
            + TailValues(m)
  {
    var cs := m.clouds;
    assert SlotValues(cs, 0) == CloudValues(cs[0]);
    assert SlotValues(cs, 1) == CloudValues(cs[1]);
    assert SlotValues(cs, 2) == CloudValues(cs[2]);
    Regroup(LeadValues(m), WeatherColumns(m.weathers), SlotValues(cs, 0), SlotValues(cs, 1),
            SlotValues(cs, 2), SlotValues(cs, 3), TailValues(m));
  }

  /** Seven lists with the middle four grouped; a separate step keeps the solver's work small. */
  lemma Regroup<T>(a: seq<T>, b: seq<T>, c: seq<T>, d: seq<T>, e: seq<T>, f: seq<T>, g: seq<T>)
    ensures a + b + c + d + e + f + g == a + b + (c + d + e + f) + g
  {
  }

  /** The row lines up with the header, value for column, exactly when the
      report has three cloud layers. */
  lemma RowMatchesHeader(m: Report)
    requires TextNoComma(m)
    ensures Split(RowBody(m)) == HeaderColumns(m) <==> |m.clouds| == 3
  {
    if |m.clouds| == 3 {
      RowMatchesHeaderThreeLayers(m);
    } else {
      RowCommas(m);
      assert |Split(RowBody(m))| != |HeaderColumns(m)|;
    }
  }
}
