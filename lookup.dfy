/**
 * The lookups of `process_query`: a city name through MANUAL_CORRECTIONS and the list of
 * location names, and a weather description to its image code through the code table
 * (an exact description first, else the best `fuzz.ratio` score).
 */
module Lookup {
  import opened Wrappers

  /** MANUAL_CORRECTIONS: colloquial and abbreviated names to the name sent to the API. */
  const ManualCorrections: map<string, string> := map[
    "台北市" := "臺北市", "台北" := "臺北市", "北市" := "臺北市", "北" := "臺北市",
    "新北" := "新北市", "臺北縣" := "新北市",
    "桃園" := "桃園市", "桃園縣" := "桃園市", "桃" := "桃園市", "園" := "桃園市",
    "台中" := "臺中市", "台中市" := "臺中市", "台中縣" := "臺中市", "臺中縣" := "臺中市", "中縣" := "臺中市", "中市" := "臺中市", "臺中" := "臺中市", "中" := "臺中市",
    "台南" := "臺南市", "台南市" := "臺南市", "臺南" := "臺南市", "台南縣" := "臺南市", "臺南縣" := "臺南市",
    "高雄" := "高雄市", "雄市" := "高雄市", "雄" := "高雄市", "高雄縣" := "高雄市",
    "基隆" := "基隆市", "基" := "基隆市", "隆" := "基隆市", "雞" := "基隆市", "籠" := "基隆市", "雞籠" := "基隆市", "基隆縣" := "基隆市", "基市" := "基隆市", "隆市" := "基隆市", "雞市" := "基隆市", "籠市" := "基隆市", "雞籠市" := "基隆市", "雞籠縣" := "基隆市", "雞縣" := "基隆市", "籠縣" := "基隆市",
    "新竹" := "新竹市", "竹" := "新竹市", "竹市" := "新竹市", "竹縣" := "新竹縣",
    "嘉義" := "嘉義市", "嘉" := "嘉義市", "義" := "嘉義市", "嘉縣" := "嘉義縣", "義縣" := "嘉義縣",
    "苗栗" := "苗栗縣", "苗" := "苗栗縣", "栗" := "苗栗縣", "栗縣" := "苗栗縣", "苗縣" := "苗栗縣", "苗栗市" := "苗栗縣",
    "彰化" := "彰化縣", "彰" := "彰化縣", "化" := "彰化縣", "彰縣" := "彰化縣", "化縣" := "彰化縣", "彰化市" := "彰化縣",
    "南投" := "南投縣", "投" := "南投縣", "投縣" := "南投縣", "南投市" := "南投縣",
    "雲林" := "雲林縣", "雲" := "雲林縣", "林" := "雲林縣", "雲縣" := "雲林縣", "林縣" := "雲林縣", "雲林市" := "雲林縣",
    "屏東" := "屏東縣", "屏" := "屏東縣", "屏縣" := "屏東縣", "屏東市" := "屏東縣", "琉球嶼" := "屏東縣", "小琉球" := "屏東縣", "琉球" := "屏東縣",
    "宜蘭" := "宜蘭縣", "宜" := "宜蘭縣", "蘭" := "宜蘭縣", "宜縣" := "宜蘭縣", "蘭縣" := "宜蘭縣", "宜蘭市" := "宜蘭縣", "龜山島" := "宜蘭縣",
    "花蓮" := "花蓮縣", "花" := "花蓮縣", "蓮" := "花蓮縣", "花縣" := "花蓮縣", "蓮縣" := "花蓮縣", "花蓮市" := "花蓮縣",
    "台東" := "臺東縣", "台東縣" := "臺東縣", "台東市" := "臺東市", "綠島" := "臺東縣", "綠鳥" := "臺東縣", "蘭嶼" := "臺東縣",
    "澎湖" := "澎湖縣", "澎" := "澎湖縣", "湖" := "澎湖縣", "澎縣" := "澎湖縣", "湖縣" := "澎湖縣", "澎湖市" := "澎湖縣",
    "金門" := "金門縣", "金" := "金門縣", "門" := "金門縣", "金縣" := "金門縣", "門縣" := "金門縣", "金門市" := "金門縣",
    "連江" := "連江縣", "連江市" := "連江縣", "馬祖" := "連江縣", "馬縣" := "連江縣", "祖縣" := "連江縣", "連" := "連江縣", "江" := "連江縣", "連縣" := "連江縣"
  ]

  /** The location list `get_location_names` falls back to when the API cannot be reached. */
  const FallbackLocationNames: seq<string> := [
    "臺北市", "新北市", "桃園市", "臺中市", "臺南市", "高雄市", "基隆市", "新竹市", "嘉義市", "新竹縣", "苗栗縣",
    "彰化縣", "南投縣", "雲林縣", "嘉義縣", "屏東縣", "宜蘭縣", "花蓮縣", "臺東縣", "澎湖縣", "金門縣", "連江縣"
  ]

  /** `matched_city`: the correction of the input if it has one, else the input if it is a location name. */
  function ResolveCity(input: string, corrections: map<string, string>, locationNames: seq<string>): (r: Option<string>)
    ensures r.Some? ==> r.value in corrections.Values || r.value in locationNames
    ensures r.None? <==> input !in corrections && input !in locationNames
  {
    if input in corrections then Some(corrections[input])
    else if input in locationNames then Some(input)
    else None
  }

  /**
   * The correction table takes precedence: an input it lists resolves to its table value
   * whatever the location list holds, even when the input is a location name itself;
   * any other input resolves to itself exactly when it is a location name.
   */
  lemma CorrectionsTakePrecedence(input: string, corrections: map<string, string>, names1: seq<string>, names2: seq<string>)
    ensures input in corrections ==>
              ResolveCity(input, corrections, names1) == ResolveCity(input, corrections, names2) == Some(corrections[input])
    ensures input !in corrections ==> (ResolveCity(input, corrections, names1) == Some(input) <==> input in names1)
  {
    if input !in corrections && ResolveCity(input, corrections, names1) == Some(input) {
      assert input in names1;
    }
  }

  /**
   * "台東市" is corrected to "臺東市", a name the fallback location list does not hold,
   * so with that list the forecast is asked for a name outside it.
   */
  lemma TaitungCityCorrection()
    ensures ResolveCity("台東市", ManualCorrections, FallbackLocationNames) == Some("臺東市")
    ensures "臺東市" !in FallbackLocationNames
  {
    assert ManualCorrections["台東市"] == "臺東市";
  }

  /** Its neighbour "台東縣" is corrected to "臺東縣", which the fallback list holds. */
  lemma TaitungCountyCorrection()
    ensures ResolveCity("台東縣", ManualCorrections, FallbackLocationNames) == Some("臺東縣")
    ensures "臺東縣" in FallbackLocationNames
  {
    assert ManualCorrections["台東縣"] == "臺東縣";
    assert FallbackLocationNames[18] == "臺東縣";
  }

  // ---------------------------------------------------------------- weather codes

  /** One row of the code table: a Chinese weather description and its category code. */
  datatype CodeRow = CodeRow(description: string, code: string)

  /** The index of the first row whose description is exactly `desc`. */
  function ExactIndex(desc: string, rows: seq<CodeRow>): (r: Option<nat>)
    ensures r.Some? ==> r.value < |rows| && rows[r.value].description == desc
    ensures r.Some? ==> forall j :: 0 <= j < r.value ==> rows[j].description != desc
    ensures r.None? <==> forall j :: 0 <= j < |rows| ==> rows[j].description != desc
  {
    if rows == [] then None
    else if rows[0].description == desc then Some(0)
    else
      var rest := ExactIndex(desc, rows[1..]);
      if rest.Some? then Some(rest.value + 1) else None
  }

  /**
   * The loop `if score > highest_score` that starts from -1: the index of the first of
   * the highest scores, provided it is above -1.
   */
  function BestIndex(scores: seq<int>): (r: Option<nat>)
    ensures r.Some? ==> r.value < |scores| && scores[r.value] > -1
    ensures r.Some? ==> forall j :: 0 <= j < |scores| ==> scores[j] <= scores[r.value]
    ensures r.Some? ==> forall j :: 0 <= j < r.value ==> scores[j] < scores[r.value]
    ensures r.None? <==> forall j :: 0 <= j < |scores| ==> scores[j] <= -1
  {
    if scores == [] then None
    else
      var last := |scores| - 1;
      var best := BestIndex(scores[..last]);
      var highest := if best.Some? then scores[best.value] else -1;
      assert best.Some? ==> scores[..last][best.value] == scores[best.value];
      if scores[last] > highest then Some(last) else best
  }

  /**
   * `fuzz.ratio(desc.lower(), row.lower())` for every row; `ratio` stands for the
   * library's score, lower-casing included.
   */
  function Scores(desc: string, rows: seq<CodeRow>, ratio: (string, string) -> int): (s: seq<int>)
    ensures |s| == |rows| && forall j :: 0 <= j < |rows| ==> s[j] == ratio(desc, rows[j].description)
  {
    seq(|rows|, j requires 0 <= j < |rows| => ratio(desc, rows[j].description))
  }

  /** The weather code `process_query` settles on for `desc`. */
  function WeatherCodeFor(desc: string, rows: seq<CodeRow>, ratio: (string, string) -> int): Option<string>
  {
    match ExactIndex(desc, rows)
    case Some(k) => Some(rows[k].code)
    case None =>
      match BestIndex(Scores(desc, rows, ratio))
      case Some(k) => Some(rows[k].code)
      case None => None
  }

  /**
   * An exact description wins over every score. Without one, the code is that of the
   * first row with the strictly highest score, so ties go to the earlier row; and with
   * scores in 0..100, as `fuzz.ratio` gives, a non-empty table always yields a code.
   */
  lemma WeatherCodeChoice(desc: string, rows: seq<CodeRow>, ratio: (string, string) -> int)
    ensures forall k :: 0 <= k < |rows| && rows[k].description == desc &&
                        (forall j :: 0 <= j < k ==> rows[j].description != desc) ==>
              WeatherCodeFor(desc, rows, ratio) == Some(rows[k].code)
    ensures (forall j :: 0 <= j < |rows| ==> rows[j].description != desc) ==>
              forall k :: 0 <= k < |rows| && ratio(desc, rows[k].description) > -1 &&
                          (forall j :: 0 <= j < k ==> ratio(desc, rows[j].description) < ratio(desc, rows[k].description)) &&
                          (forall j :: k < j < |rows| ==> ratio(desc, rows[j].description) <= ratio(desc, rows[k].description)) ==>
                WeatherCodeFor(desc, rows, ratio) == Some(rows[k].code)
    ensures rows != [] && (forall j :: 0 <= j < |rows| ==> 0 <= ratio(desc, rows[j].description)) ==>
              WeatherCodeFor(desc, rows, ratio).Some?
  {
    var scores := Scores(desc, rows, ratio);
    var best := BestIndex(scores);
    if rows != [] && (forall j :: 0 <= j < |rows| ==> 0 <= ratio(desc, rows[j].description)) {
      assert scores[0] >= 0;
    }
    forall k | 0 <= k < |rows| && ExactIndex(desc, rows).None? && scores[k] > -1 &&
               (forall j :: 0 <= j < k ==> scores[j] < scores[k]) &&
               (forall j :: k < j < |rows| ==> scores[j] <= scores[k])
      ensures best == Some(k)
    {
      assert best.Some?;
      var b := best.value;
      assert scores[b] >= scores[k] && scores[k] >= scores[b];
    }
  }

  /** One more score: the first strictly highest moves to it exactly when it beats the highest so far. */
  lemma BestIndexStep(scores: seq<int>, i: nat)
    requires i < |scores|
    ensures var best := BestIndex(scores[..i]);
            var highest := if best.Some? then scores[best.value] else -1;
            BestIndex(scores[..i + 1]) == if scores[i] > highest then Some(i) else best
  {
    assert scores[..i + 1][..i] == scores[..i];
    var best := BestIndex(scores[..i]);
    assert best.Some? ==> scores[..i][best.value] == scores[best.value];
  }

  /** The two loops of `process_query`: exact match with `break`, then the best score. */
  method ResolveWeatherCode(desc: string, rows: seq<CodeRow>, ratio: (string, string) -> int) returns (code: Option<string>)
    ensures code == WeatherCodeFor(desc, rows, ratio)
  {
    code := None;
    for i := 0 to |rows|
      invariant code.None?
      invariant forall j :: 0 <= j < i ==> rows[j].description != desc
    {
      if desc == rows[i].description {
        code := Some(rows[i].code);
        break;
      }
    }
    if code.None? {
      ghost var scores := Scores(desc, rows, ratio);
      var highest := -1;
      for i := 0 to |rows|
        invariant var best := BestIndex(scores[..i]);
                  && (best.Some? ==> code == Some(rows[best.value].code) && highest == scores[best.value])
                  && (best.None? ==> code.None? && highest == -1)
      {
        BestIndexStep(scores, i);
        var score := ratio(desc, rows[i].description);
        if score > highest {
          highest := score;
          code := Some(rows[i].code);
        }
      }
      assert scores[..|rows|] == scores;
    }
  }
}
