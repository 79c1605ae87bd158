/**
 * The no-repeat recommendation pools kept in the session: `recommended_music_original_indices`
 * and `recommended_movie_indices`. A pick is drawn from the catalogue minus what was already
 * recommended; when nothing is left the set is cleared first, and the pick is added to it.
 * `random.choice` is an arbitrary member of the (non-empty) candidates.
 */
module Recommend {
  import opened Wrappers
  import YouTube

  /** A row of the music table: its original row index, URL, matched descriptions and title. */
  datatype Video = Video(index: int, url: string, desc: string, title: string)

  /** A poster file of the movie folder. */
  datatype Movie = Movie(title: string, posterUrl: string)

  /** The minimum `fuzz.partial_ratio` a video needs to count as a match. */
  const MinMatchScore: int := 30

  const EmptyMusicText: string := "音樂列表為空，無法隨機推薦音樂。"
  const EmptyMusicMatchText: string := "音樂列表為空，無法推薦音樂。"
  const RandomPickText: string := "已為您隨機推薦歌曲："
  const RandomNoIdText: string := "無法從連結中提取影片ID。請重新點選。"
  const MatchedText: string := "這樣的天氣來聽這首療癒一下吧！"
  const MatchedNoIdText: string := "這樣的天氣來聽這首療癒一下吧！\n(抱歉，無法從連結中提取影片ID。)"
  const EmptyMovieText: string := "電影列表為空，無法隨機推薦電影。"

  // ---------------------------------------------------------------- the pool rule

  /** The available indices and the recommended set once the pool has been refilled. */
  datatype Pool = Pool(available: set<int>, recommended: set<int>)

  /**
   * `all - recommended`; when that is empty and the catalogue is not, the recommended set
   * is cleared and everything is available again.
   */
  function Refill(all: set<int>, recommended: set<int>): (p: Pool)
    ensures p.available == all - p.recommended
    ensures p.recommended == recommended || (all != {} && all <= recommended && p.recommended == {})
    ensures all != {} ==> p.available != {}
  {
    if all - recommended == {} && all != {} then Pool(all, {}) else Pool(all - recommended, recommended)
  }

  /** The index `pick` was available and is the one added to the refilled set. */
  ghost predicate PickedFrom(all: set<int>, before: set<int>, pick: int, after: set<int>)
  {
    var p := Refill(all, before);
    pick in p.available && after == p.recommended + {pick}
  }

  /** Refilling twice is refilling once: the second lookup in a pick sees the same pool. */
  lemma RefillIdempotent(all: set<int>, recommended: set<int>)
    ensures var p := Refill(all, recommended); Refill(all, p.recommended) == p
  {
    var p := Refill(all, recommended);
    if p.recommended == {} && all != {} {
      assert all - {} == all;
    }
  }

  /** The recommended set after a run of picks. */
  function After(all: set<int>, recommended: set<int>, picks: seq<int>): set<int>
    decreases |picks|
  {
    if picks == [] then recommended
    else After(all, Refill(all, recommended).recommended + {picks[0]}, picks[1..])
  }

  /** Every pick of the run was available when it was made. */
  ghost predicate ValidRun(all: set<int>, recommended: set<int>, picks: seq<int>)
    decreases |picks|
  {
    picks != [] ==>
      picks[0] in Refill(all, recommended).available &&
      ValidRun(all, Refill(all, recommended).recommended + {picks[0]}, picks[1..])
  }

  lemma NotExhausted(all: set<int>, recommended: set<int>)
    requires recommended <= all && |recommended| < |all|
    ensures all - recommended != {}
  {
    var rest := all - recommended;
    assert all == recommended + rest;
    assert |all| <= |recommended| + |rest|;
  }

  /** No index occurs twice in `s`. */
  ghost predicate Distinct(s: seq<int>)
  {
    forall i, j :: 0 <= i < j < |s| ==> s[i] != s[j]
  }

  lemma DistinctCons(s: seq<int>)
    requires s != [] && s[0] !in s[1..] && Distinct(s[1..])
    ensures Distinct(s)
  {
    forall i, j | 0 <= i < j < |s| ensures s[i] != s[j] {
      assert s[j] == s[1..][j - 1];
      if i > 0 {
        assert s[i] == s[1..][i - 1];
      }
    }
  }

  /**
   * No repeat until the pool is exhausted: starting from a recommended set inside the
   * catalogue, as long as the picks do not outnumber what is left, no pick repeats, none
   * was recommended before, and no reset happens: the set grows by exactly the picks.
   */
  lemma {:induction false} NoRepeatUntilExhausted(all: set<int>, recommended: set<int>, picks: seq<int>)
    requires recommended <= all && ValidRun(all, recommended, picks)
    requires |recommended| + |picks| <= |all|
    ensures Distinct(picks)
    ensures forall x :: x in picks ==> x in all && x !in recommended
    ensures After(all, recommended, picks) == recommended + set x | x in picks
    decreases |picks|
  {
    if picks != [] {
      NotExhausted(all, recommended);
      var first, rest := picks[0], picks[1..];
      var next := recommended + {first};
      assert Refill(all, recommended).recommended == recommended;
      assert ValidRun(all, next, rest);
      assert first in all && first !in recommended;
      assert |next| == |recommended| + 1;
      NoRepeatUntilExhausted(all, next, rest);
      assert After(all, recommended, picks) == After(all, next, rest);
      ElementsOfCons(picks);
      DistinctCons(picks);
    }
  }

  lemma ElementsOfCons(s: seq<int>)
    requires s != []
    ensures forall x :: x in s <==> x == s[0] || x in s[1..]
    ensures (set x | x in s) == {s[0]} + set x | x in s[1..]
  {
    assert s == [s[0]] + s[1..];
  }

  /** After a pick, what is still available is the pool minus that one pick. */
  lemma PickLeavesOneFewer(all: set<int>, available: set<int>, recommended: set<int>, pick: int)
    requires pick in available && available == all - recommended
    ensures |all - (recommended + {pick})| == |available| - 1
  {
    assert all - (recommended + {pick}) == available - {pick};
  }

  /** Once every index has been recommended, the next pick starts a fresh round. */
  lemma ResetWhenExhausted(all: set<int>, recommended: set<int>)
    requires all != {} && all <= recommended
    ensures Refill(all, recommended) == Pool(all, {})
  {
  }

  // ---------------------------------------------------------------- catalogues

  /** `{video['index'] for video in all_videos}`. */
  function Indices(videos: seq<Video>): set<int>
  {
    set v | v in videos :: v.index
  }

  /** `set(range(n))`. */
  function Range(n: nat): (r: set<int>)
    ensures forall i :: i in r <==> 0 <= i < n
    ensures |r| == n
  {
    if n == 0 then {} else Range(n - 1) + {n - 1}
  }

  /** `[video for video in all_videos if video['index'] in available]`. */
  function VideosIn(videos: seq<Video>, available: set<int>): (r: seq<Video>)
    ensures forall v :: v in r <==> v in videos && v.index in available
  {
    if videos == [] then []
    else if videos[0].index in available then [videos[0]] + VideosIn(videos[1..], available)
    else VideosIn(videos[1..], available)
  }

  /** The refilled pool of a non-empty catalogue always holds one of its videos. */
  lemma CandidatesNonEmpty(videos: seq<Video>, recommended: set<int>)
    requires videos != []
    ensures VideosIn(videos, Refill(Indices(videos), recommended).available) != []
  {
    var all := Indices(videos);
    assert videos[0].index in all;
    var p := Refill(all, recommended);
    var x :| x in p.available;
    var v :| v in videos && v.index == x;
    assert v in VideosIn(videos, p.available);
  }

  /** Python's `if youtube_id:`: None and the empty string count as no id. */
  function UsableId(id: Option<string>): Option<string>
  {
    if id.Some? && id.value != "" then id else None
  }

  // ---------------------------------------------------------------- matching

  /** `matched_available_videos_with_score`: candidates scoring at least MinMatchScore, in order. */
  function Matches(candidates: seq<Video>, weatherDesc: string, score: (string, string) -> int): seq<(Video, int)>
  {
    if candidates == [] then []
    else
      var s := score(weatherDesc, candidates[0].desc);
      var rest := Matches(candidates[1..], weatherDesc, score);
      if s >= MinMatchScore then [(candidates[0], s)] + rest else rest
  }

  /**
   * The matches are exactly the candidates that reach MinMatchScore, each paired with
   * its own score.
   */
  lemma {:induction false} MatchesMeaning(candidates: seq<Video>, weatherDesc: string, score: (string, string) -> int)
    ensures forall m :: m in Matches(candidates, weatherDesc, score) ==>
              m.0 in candidates && m.1 == score(weatherDesc, m.0.desc) && m.1 >= MinMatchScore
    ensures forall v :: v in candidates && score(weatherDesc, v.desc) >= MinMatchScore ==>
              (v, score(weatherDesc, v.desc)) in Matches(candidates, weatherDesc, score)
    decreases |candidates|
  {
    if candidates != [] {
      MatchesMeaning(candidates[1..], weatherDesc, score);
      var first := candidates[0];
      var rest := Matches(candidates[1..], weatherDesc, score);
      var r := Matches(candidates, weatherDesc, score);
      if score(weatherDesc, first.desc) >= MinMatchScore {
        assert r == [(first, score(weatherDesc, first.desc))] + rest;
      } else {
        assert r == rest;
      }
      forall m | m in r
        ensures m.0 in candidates && m.1 == score(weatherDesc, m.0.desc) && m.1 >= MinMatchScore
      {
        if m in rest {
          assert m.0 in candidates[1..];
        }
      }
      forall v | v in candidates && score(weatherDesc, v.desc) >= MinMatchScore
        ensures (v, score(weatherDesc, v.desc)) in r
      {
        if v != first {
          assert v in candidates[1..];
        }
      }
    }
  }

  /** `[video for video, score in matched if score == best]`. */
  function TopMatches(matched: seq<(Video, int)>, best: int): (r: seq<Video>)
    ensures forall v :: v in r <==> (v, best) in matched
  {
    if matched == [] then []
    else
      var rest := TopMatches(matched[1..], best);
      if matched[0].1 == best then [matched[0].0] + rest else rest
  }

  /** Some video of the refilled pool reaches MinMatchScore. */
  ghost predicate AnyMatch(videos: seq<Video>, recommended: set<int>, weatherDesc: string, score: (string, string) -> int)
  {
    var available := Refill(Indices(videos), recommended).available;
    exists v :: v in videos && v.index in available && score(weatherDesc, v.desc) >= MinMatchScore
  }

  /** `pick` reaches MinMatchScore and no video of the refilled pool scores higher. */
  ghost predicate BestMatch(videos: seq<Video>, recommended: set<int>, weatherDesc: string, score: (string, string) -> int, pick: Video)
  {
    var available := Refill(Indices(videos), recommended).available;
    && score(weatherDesc, pick.desc) >= MinMatchScore
    && forall v :: v in videos && v.index in available ==>
         score(weatherDesc, v.desc) <= score(weatherDesc, pick.desc) || score(weatherDesc, v.desc) < MinMatchScore
  }

  /** The text of a matched pick, with or without a usable id. */
  function MatchedMusicText(youtubeId: Option<string>): string
  {
    if youtubeId.Some? then MatchedText else MatchedNoIdText
  }

  /** The text of a random pick, with or without a usable id. */
  function RandomMusicText(youtubeId: Option<string>): string
  {
    if youtubeId.Some? then RandomPickText else RandomNoIdText
  }

  // ---------------------------------------------------------------- the session

  class Session {
    var recommendedMusic: set<int>
    var recommendedMovies: set<int>

    /** The session state as first initialised: nothing recommended yet. */
    constructor ()
      ensures recommendedMusic == {} && recommendedMovies == {}
    {
      recommendedMusic := {};
      recommendedMovies := {};
    }

    /** `get_available_music_indices`: the refilled pool of the catalogue's indices. */
    method AvailableMusicIndices(videos: seq<Video>) returns (available: set<int>)
      modifies this`recommendedMusic
      ensures var p := Refill(Indices(videos), old(recommendedMusic));
              available == p.available && recommendedMusic == p.recommended
      ensures videos != [] ==> available != {}
    {
      var all := set v | v in videos :: v.index;
      available := all - recommendedMusic;
      if available == {} && |all| > 0 {
        recommendedMusic := {};
        available := all;
      }
      if videos != [] {
        assert videos[0].index in all;
      }
    }

    /** `random_music_recommendation`: an arbitrary available video, recorded as recommended. */
    method RandomMusic(videos: seq<Video>) returns (text: string, youtubeId: Option<string>, picked: Option<Video>)
      modifies this`recommendedMusic
      ensures videos == [] ==> text == EmptyMusicText && youtubeId.None? && picked.None?
                               && recommendedMusic == old(recommendedMusic)
      ensures videos != [] ==> picked.Some? && picked.value in videos
                               && PickedFrom(Indices(videos), old(recommendedMusic), picked.value.index, recommendedMusic)
      ensures picked.Some? ==> youtubeId == UsableId(YouTube.ExtractYoutubeId(picked.value.url))
                               && text == RandomMusicText(youtubeId)
    {
      if videos == [] {
        return EmptyMusicText, None, None;
      }
      ghost var before := recommendedMusic;
      var available := AvailableMusicIndices(videos);
      var candidates := VideosIn(videos, available);
      CandidatesNonEmpty(videos, before);
      var selected :| selected in candidates;
      recommendedMusic := recommendedMusic + {selected.index};
      picked := Some(selected);
      youtubeId := UsableId(YouTube.ExtractYoutubeId(selected.url));
      text := RandomMusicText(youtubeId);
    }

    /**
     * `find_and_recommend_music`: among the available videos scoring at least
     * MinMatchScore, an arbitrary one with the best score; none such: a random pick.
     */
    method FindAndRecommendMusic(weatherDesc: string, videos: seq<Video>, score: (string, string) -> int)
      returns (text: string, youtubeId: Option<string>, picked: Option<Video>)
      modifies this`recommendedMusic
      ensures videos == [] ==> text == EmptyMusicMatchText && youtubeId.None? && picked.None?
                               && recommendedMusic == old(recommendedMusic)
      ensures videos != [] ==> picked.Some? && picked.value in videos
                               && PickedFrom(Indices(videos), old(recommendedMusic), picked.value.index, recommendedMusic)
      ensures AnyMatch(videos, old(recommendedMusic), weatherDesc, score) ==>
                && picked.Some?
                && BestMatch(videos, old(recommendedMusic), weatherDesc, score, picked.value)
                && youtubeId == UsableId(YouTube.ExtractYoutubeId(picked.value.url))
                && text == MatchedMusicText(youtubeId)
      ensures videos != [] && !AnyMatch(videos, old(recommendedMusic), weatherDesc, score) ==>
                && youtubeId == UsableId(YouTube.ExtractYoutubeId(picked.value.url))
                && text == RandomMusicText(youtubeId)
    {
      if videos == [] {
        return EmptyMusicMatchText, None, None;
      }
      ghost var before := recommendedMusic;
      var available := AvailableMusicIndices(videos);
      var candidates := VideosIn(videos, available);
      CandidatesNonEmpty(videos, before);

      var matched, best := ScoreCandidates(candidates, weatherDesc, score);
      MatchesMeaning(candidates, weatherDesc, score);

      if matched != [] {
        var k :| 0 <= k < |matched| && matched[k].1 == best;
        var top := TopMatches(matched, best);
        assert matched[k].0 in top;
        var selected :| selected in top;
        youtubeId := UsableId(YouTube.ExtractYoutubeId(selected.url));
        recommendedMusic := recommendedMusic + {selected.index};
        picked := Some(selected);
        text := MatchedMusicText(youtubeId);
        forall v | v in videos && v.index in available && score(weatherDesc, v.desc) >= MinMatchScore
          ensures score(weatherDesc, v.desc) <= best
        {
          assert v in candidates;
          assert (v, score(weatherDesc, v.desc)) in matched;
        }
      } else {
        forall v | v in videos && v.index in available ensures score(weatherDesc, v.desc) < MinMatchScore {
          assert v in candidates;
        }
        RefillIdempotent(Indices(videos), before);
        text, youtubeId, picked := RandomMusic(videos);
      }
    }

    /** `random_movie_recommendation`: an arbitrary movie not yet recommended in this round. */
    method RandomMovie(movies: seq<Movie>) returns (title: string, posterUrl: Option<string>, remaining: int, picked: Option<nat>)
      modifies this`recommendedMovies
      ensures movies == [] ==> title == EmptyMovieText && posterUrl.None? && remaining == 0 && picked.None?
                               && recommendedMovies == old(recommendedMovies)
      ensures movies != [] ==> picked.Some? && picked.value < |movies|
                               && PickedFrom(Range(|movies|), old(recommendedMovies), picked.value, recommendedMovies)
                               && title == movies[picked.value].title
                               && posterUrl == Some(movies[picked.value].posterUrl)
      ensures movies != [] ==> remaining == |Refill(Range(|movies|), old(recommendedMovies)).available| - 1
                               && remaining >= 0
                               && remaining == |Range(|movies|) - recommendedMovies|
    {
      if movies == [] {
        return EmptyMovieText, None, 0, None;
      }
      var all := Range(|movies|);
      var available := all - recommendedMovies;
      if available == {} {
        recommendedMovies := {};
        available := all;
      }
      var selected :| selected in available;
      PickLeavesOneFewer(all, available, recommendedMovies, selected);
      recommendedMovies := recommendedMovies + {selected};
      remaining := |available| - 1;
      return movies[selected].title, Some(movies[selected].posterUrl), remaining, Some(selected);
    }
  }

  /**
   * The scoring loop of `find_and_recommend_music`: the candidates that reach
   * MinMatchScore with their scores, and the best of those scores (-1 when none).
   */
  method ScoreCandidates(candidates: seq<Video>, weatherDesc: string, score: (string, string) -> int)
    returns (matched: seq<(Video, int)>, best: int)
    ensures matched == Matches(candidates, weatherDesc, score)
    ensures matched == [] ==> best == -1
    ensures matched != [] ==> exists k :: 0 <= k < |matched| && matched[k].1 == best
    ensures forall k :: 0 <= k < |matched| ==> matched[k].1 <= best
  {
    matched := [];
    best := -1;
    ghost var top: nat := 0;
    for i := 0 to |candidates|
      invariant matched == Matches(candidates[..i], weatherDesc, score)
      invariant matched == [] ==> best == -1
      invariant matched != [] ==> top < |matched| && matched[top].1 == best
      invariant forall k :: 0 <= k < |matched| ==> matched[k].1 <= best
    {
      MatchesAppend(candidates[..i], candidates[i], weatherDesc, score);
      assert candidates[..i + 1] == candidates[..i] + [candidates[i]];
      var s := score(weatherDesc, candidates[i].desc);
      if s >= MinMatchScore {
        matched := matched + [(candidates[i], s)];
        if s > best {
          best := s;
          top := |matched| - 1;
        }
      }
    }
    assert candidates[..|candidates|] == candidates;
  }

  /** Scoring one more candidate appends it to the matches exactly when it reaches the minimum. */
  lemma {:induction false} MatchesAppend(candidates: seq<Video>, v: Video, weatherDesc: string, score: (string, string) -> int)
    ensures Matches(candidates + [v], weatherDesc, score) ==
              Matches(candidates, weatherDesc, score) +
              (if score(weatherDesc, v.desc) >= MinMatchScore then [(v, score(weatherDesc, v.desc))] else [])
    decreases |candidates|
  {
    if candidates != [] {
      assert (candidates + [v])[1..] == candidates[1..] + [v];
      MatchesAppend(candidates[1..], v, weatherDesc, score);
    }
  }
}
