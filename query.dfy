/**
 * One query (`process_query`): resolve the input to a city, fetch its forecast, pick the
 * weather image and, on request, a matching song; an input that names no city gets a
 * random song instead. The page fields the query sets are returned as an Outcome, since
 * the query first clears every one of them. The forecast fetch, the image files and the
 * fuzzy ratio are parameters.
 */
module Query {
  import opened Wrappers
  import Lookup
  import Images
  import Recommend
  import YouTube

  /** What `get_weather_data` hands back: its description and text, or its error text. */
  datatype WeatherResponse = Success(description: string, displayText: string) | Failure(displayText: string)

  /**
   * The page fields set by a query: the result text, the YouTube id to embed, the path
   * of the weather image and its caption.
   */
  datatype Outcome = Outcome(resultText: string, youtubeId: Option<string>, image: Option<string>, caption: Option<string>)

  const PromptText: string := "請輸入縣市名稱或天氣關鍵字！"

  /** The weather image and caption for a forecast description and its (maybe missing) code. */
  function WeatherPicture(files: set<string>, desc: string, code: Option<string>): (r: (Option<string>, Option<string>))
    ensures r.1.Some?
    ensures r.0.Some? ==> (code.Some? && code.value != "" && r.1 == Some(desc)
                           && r.0 == Images.ChosenImage(files, Images.WeatherImagesDir, code.value))
    ensures code.Some? && code.value != "" && Images.ChosenImage(files, Images.WeatherImagesDir, code.value).Some? ==>
              r == (Images.ChosenImage(files, Images.WeatherImagesDir, code.value), Some(desc))
    ensures code.Some? && code.value != "" && Images.ChosenImage(files, Images.WeatherImagesDir, code.value).None? ==>
              r == (None, Some("天氣：" + desc + " (無圖片可用)"))
    ensures code.None? || code.value == "" ==> r == (None, Some("天氣：" + desc + " (無匹配代碼或圖片可用)"))
  {
    if code.Some? && code.value != "" then
      var path := Images.ChosenImage(files, Images.WeatherImagesDir, code.value);
      if path.Some? then (path, Some(desc)) else (None, Some("天氣：" + desc + " (無圖片可用)"))
    else (None, Some("天氣：" + desc + " (無匹配代碼或圖片可用)"))
  }

  /**
   * An image is shown for a forecast exactly when its code is usable and an image of
   * that code or a default image exists; a shown image is a file that exists.
   */
  lemma WeatherPictureShown(files: set<string>, desc: string, code: Option<string>)
    ensures var r := WeatherPicture(files, desc, code);
            && (r.0.Some? ==> r.0.value in files)
            && (r.0.Some? <==>
                  && code.Some? && code.value != ""
                  && ((exists k :: 0 <= k < |Images.ImageExtensions| && Images.Candidates(Images.WeatherImagesDir, code.value)[k] in files)
                      || (exists k :: 0 <= k < |Images.ImageExtensions| && Images.Candidates(Images.WeatherImagesDir, Images.DefaultStem)[k] in files)))
  {
    if code.Some? && code.value != "" {
      Images.ChosenImageOrder(files, Images.WeatherImagesDir, code.value);
    }
  }

  /** The default image and caption shown when the forecast for `city` could not be had. */
  function FailurePicture(files: set<string>, city: string): (Option<string>, Option<string>)
  {
    var path := Images.ChosenImage(files, Images.WeatherImagesDir, Images.DefaultStem);
    (path, Some(if path.Some? then "無法取得 " + city + " 天氣資料" else "無法取得 " + city + " 天氣資料 (無圖片可用)"))
  }

  /**
   * After a failed forecast the image is the first default image, in extension order,
   * that exists, and there is none exactly when no default image exists; the caption
   * names the city and says so when there is no image.
   */
  lemma FailurePictureShown(files: set<string>, city: string)
    ensures var (image, caption) := FailurePicture(files, city);
            var defaults := Images.Candidates(Images.WeatherImagesDir, Images.DefaultStem);
            && (image.None? <==> forall k :: 0 <= k < |defaults| ==> defaults[k] !in files)
            && (image.Some? ==>
                  exists k :: 0 <= k < |defaults| && image == Some(defaults[k]) && defaults[k] in files
                              && forall j :: 0 <= j < k ==> defaults[j] !in files)
            && caption == Some(if image.Some? then "無法取得 " + city + " 天氣資料" else "無法取得 " + city + " 天氣資料 (無圖片可用)")
  {
    Images.ChosenImageOrder(files, Images.WeatherImagesDir, Images.DefaultStem);
  }

  /**
   * Python's `if matched_city:` on the resolved city. The correction table decides an
   * input it lists, and the city is matched exactly when the correction is non-empty;
   * any other input is matched, as itself, exactly when it is a non-empty location name.
   */
  function MatchedCity(input: string, corrections: map<string, string>, locationNames: seq<string>): (r: Option<string>)
    ensures input in corrections ==> (r.Some? <==> corrections[input] != "")
    ensures input in corrections && r.Some? ==> r.value == corrections[input]
    ensures input !in corrections ==> (r.Some? <==> input in locationNames && input != "")
    ensures input !in corrections && r.Some? ==> r.value == input
  {
    var c := Lookup.ResolveCity(input, corrections, locationNames);
    if c.Some? && c.value != "" then c else None
  }

  /**
   * `process_query`. Besides the page fields it returns the song it drew, if any, which
   * the source records only in the session's set.
   */
  method ProcessQuery(session: Recommend.Session, input: string, corrections: map<string, string>,
                      locationNames: seq<string>, videos: seq<Recommend.Video>, recommendMusic: bool,
                      codes: seq<Lookup.CodeRow>, fetch: string -> WeatherResponse, files: set<string>,
                      ratio: (string, string) -> int, score: (string, string) -> int)
    returns (out: Outcome, picked: Option<Recommend.Video>)
    modifies session
    ensures session.recommendedMovies == old(session.recommendedMovies)
    // No song drawn leaves the music set as it was; a drawn song was available and is recorded.
    ensures picked.None? ==> session.recommendedMusic == old(session.recommendedMusic)
    ensures picked.Some? ==>
              && picked.value in videos
              && Recommend.PickedFrom(Recommend.Indices(videos), old(session.recommendedMusic), picked.value.index, session.recommendedMusic)
              && out.youtubeId == Recommend.UsableId(YouTube.ExtractYoutubeId(picked.value.url))
    // An empty input only prompts for one.
    ensures input == "" ==> out == Outcome(PromptText, None, None, None) && picked.None?
    // A city whose forecast could not be had: its error text and the default image.
    ensures var city := MatchedCity(input, corrections, locationNames);
            input != "" && city.Some? && fetch(city.value).Failure? ==>
              var (image, caption) := FailurePicture(files, city.value);
              out == Outcome(fetch(city.value).displayText, None, image, caption) && picked.None?
    // A city with a forecast: its text, the image of its weather code, and on request a song.
    ensures var city := MatchedCity(input, corrections, locationNames);
            input != "" && city.Some? && fetch(city.value).Success? ==>
              var w := fetch(city.value);
              var code := Lookup.WeatherCodeFor(w.description, codes, ratio);
              var (image, caption) := WeatherPicture(files, w.description, code);
              && out.image == image && out.caption == caption
              && (!recommendMusic ==> out.resultText == w.displayText && out.youtubeId.None? && picked.None?)
              && (recommendMusic && videos == [] ==>
                    out.resultText == w.displayText + "\n\n" + Recommend.EmptyMusicMatchText
                    && out.youtubeId.None? && picked.None?)
              && (recommendMusic && videos != [] ==>
                    && picked.Some?
                    && (Recommend.AnyMatch(videos, old(session.recommendedMusic), w.description, score) ==>
                          && Recommend.BestMatch(videos, old(session.recommendedMusic), w.description, score, picked.value)
                          && out.resultText == w.displayText + "\n\n" + Recommend.MatchedMusicText(out.youtubeId))
                    && (!Recommend.AnyMatch(videos, old(session.recommendedMusic), w.description, score) ==>
                          out.resultText == w.displayText + "\n\n" + Recommend.RandomMusicText(out.youtubeId)))
    // No city: a random song and no image.
    ensures input != "" && MatchedCity(input, corrections, locationNames).None? ==>
              && out.image.None? && out.caption.None?
              && (videos == [] ==> out == Outcome(Recommend.EmptyMusicText, None, None, None) && picked.None?)
              && (videos != [] ==> picked.Some? && out.resultText == Recommend.RandomMusicText(out.youtubeId))
  {
    if input == "" {
      return Outcome(PromptText, None, None, None), None;
    }
    var resolved := Lookup.ResolveCity(input, corrections, locationNames);
    if resolved.Some? && resolved.value != "" {
      var city := resolved.value;
      var response := fetch(city);
      if response.Success? {
        var desc := response.description;
        var code := Lookup.ResolveWeatherCode(desc, codes, ratio);
        var image: Option<string> := None;
        var caption: Option<string>;
        if code.Some? && code.value != "" {
          image := Images.ImagePathOrDefault(files, Images.WeatherImagesDir, code.value);
          caption := if image.Some? then Some(desc) else Some("天氣：" + desc + " (無圖片可用)");
        } else {
          caption := Some("天氣：" + desc + " (無匹配代碼或圖片可用)");
        }
        var text := response.displayText;
        var youtubeId: Option<string> := None;
        picked := None;
        if recommendMusic {
          var musicText;
          musicText, youtubeId, picked := session.FindAndRecommendMusic(desc, videos, score);
          text := text + "\n\n" + musicText;
        }
        return Outcome(text, youtubeId, image, caption), picked;
      } else {
        var image := Images.ImagePathOrDefault(files, Images.WeatherImagesDir, Images.DefaultStem);
        var caption := if image.Some? then "無法取得 " + city + " 天氣資料" else "無法取得 " + city + " 天氣資料 (無圖片可用)";
        return Outcome(response.displayText, None, image, Some(caption)), None;
      }
    } else {
      var musicText, id;
      musicText, id, picked := session.RandomMusic(videos);
      return Outcome(musicText, id, None, None), picked;
    }
  }
}
