/**
 * Extracting a YouTube video id from a URL (`extract_youtube_id`).
 *
 * Two regular expressions are tried with Python's `re.search`, which reports the match
 * that starts leftmost; then three substring tests with `split` fallbacks.
 *   primary:     (?:v=|youtu\.be/|embed/|live/)([a-zA-Z0-9_-]{11})
 *   usercontent: googleusercontent\.com/youtube\.com/\d+([a-zA-Z0-9_-]+)
 */
module YouTube {
  import opened Wrappers
  import opened Text

  const IdLength: nat := 11

  /** The alternatives of the primary pattern, in the order the regex tries them. */
  const Markers: seq<string> := ["v=", "youtu.be/", "embed/", "live/"]

  const UsercontentMarker: string := "googleusercontent.com/youtube.com/"

  /** The character class [a-zA-Z0-9_-]. */
  predicate IsIdChar(c: char)
  {
    ('a' <= c <= 'z') || ('A' <= c <= 'Z') || ('0' <= c <= '9') || c == '_' || c == '-'
  }

  /** `\d`, taken as the ASCII digits. */
  predicate IsDigit(c: char)
  {
    '0' <= c <= '9'
  }

  /** A string the primary pattern's group can capture: eleven id characters. */
  predicate IsVideoId(id: string)
  {
    |id| == IdLength && forall k :: 0 <= k < |id| ==> IsIdChar(id[k])
  }

  /** `n` id characters start at index `i`. */
  predicate IdRun(s: string, i: int, n: nat)
  {
    0 <= i && i + n <= |s| && forall k :: i <= k < i + n ==> IsIdChar(s[k])
  }

  /** Marker `m` starts at `i` and is followed by eleven id characters. */
  predicate MarkerMatch(s: string, i: int, m: string)
  {
    OccursAt(s, m, i) && IdRun(s, i + |m|, IdLength)
  }

  /** The primary pattern, anchored at `i`: the group of the first alternative that matches. */
  function PrimaryAt(s: string, i: nat): (r: Option<string>)
    ensures r.Some? <==> exists m :: m in Markers && MarkerMatch(s, i, m)
    ensures r.Some? ==> IsVideoId(r.value)
    ensures r.Some? ==> exists m :: m in Markers && MarkerMatch(s, i, m) && r.value == s[i + |m|..i + |m| + IdLength]
  {
    MarkerGroup(s, i, Markers)
  }

  function MarkerGroup(s: string, i: nat, ms: seq<string>): (r: Option<string>)
    ensures r.Some? <==> exists m :: m in ms && MarkerMatch(s, i, m)
    ensures r.Some? ==> IsVideoId(r.value)
    ensures r.Some? ==> exists m :: m in ms && MarkerMatch(s, i, m) && r.value == s[i + |m|..i + |m| + IdLength]
  {
    if ms == [] then None
    else if MarkerMatch(s, i, ms[0]) then Some(s[i + |ms[0]|..i + |ms[0]| + IdLength])
    else MarkerGroup(s, i, ms[1..])
  }

  /** Length of the run of characters satisfying `p` that starts at `i`. */
  function RunLength(s: string, i: nat, p: char -> bool): (n: nat)
    requires i <= |s|
    ensures i + n <= |s|
    ensures forall k :: i <= k < i + n ==> p(s[k])
    ensures i + n == |s| || !p(s[i + n])
    decreases |s| - i
  {
    if i == |s| || !p(s[i]) then 0 else 1 + RunLength(s, i + 1, p)
  }

  /**
   * The usercontent pattern, anchored at `i`. `\d+` is greedy: when an id character
   * follows the digits, the group is the id run after them; otherwise the regex gives
   * back one digit, which then becomes the whole group, and it fails on a single digit.
   */
  function UsercontentAt(s: string, i: nat): (r: Option<string>)
    ensures r.Some? ==> OccursAt(s, UsercontentMarker, i)
    ensures r.Some? ==> |r.value| > 0 && forall k :: 0 <= k < |r.value| ==> IsIdChar(r.value[k])
  {
    if !OccursAt(s, UsercontentMarker, i) then None
    else
      var j := i + |UsercontentMarker|;
      var d := RunLength(s, j, IsDigit);
      if d >= 1 && j + d < |s| && IsIdChar(s[j + d]) then
        Some(s[j + d..j + d + RunLength(s, j + d, IsIdChar)])
      else if d >= 2 then
        Some(s[j + d - 1..j + d])
      else
        None
  }

  /** `re.search`: the leftmost index, from `from` to `|s|`, at which `at` matches. */
  function Search(s: string, from: nat, at: (string, nat) -> Option<string>): (r: Option<nat>)
    ensures r.Some? ==> from <= r.value <= |s| && at(s, r.value).Some?
    ensures r.Some? ==> forall j :: from <= j < r.value ==> at(s, j).None?
    ensures r.None? ==> forall j :: from <= j <= |s| ==> at(s, j).None?
    decreases |s| + 1 - from
  {
    if from > |s| then None
    else if at(s, from).Some? then Some(from)
    else Search(s, from + 1, at)
  }

  const WatchMarker: string := "youtube.com/watch?v="
  const ShortMarker: string := "youtu.be/"
  const UsercontentOneMarker: string := "googleusercontent.com/youtube.com/1"

  /** `extract_youtube_id(url)`; None stands for Python's None. */
  function ExtractYoutubeId(url: string): (r: Option<string>)
  {
    var p := Search(url, 0, PrimaryAt);
    if p.Some? then PrimaryAt(url, p.value) else UsercontentOrFallback(url)
  }

  /** What `extract_youtube_id` does once the primary pattern has not matched. */
  function UsercontentOrFallback(url: string): (r: Option<string>)
  {
    var u := Search(url, 0, UsercontentAt);
    if u.Some? then UsercontentAt(url, u.value)
    else if Contains(url, WatchMarker) then
      ContainsPart(url, WatchMarker, 18, "v=");
      Some(Field0(Field1(url, "v="), "&"))
    else if Contains(url, ShortMarker) then
      Some(Field0(Field1(url, ShortMarker), "?"))
    else if Contains(url, UsercontentOneMarker) then
      Some(Field0(Field1(url, UsercontentOneMarker), "?"))
    else
      None
  }

  /**
   * The first occurrence wins: when the primary pattern matches at `i` and nowhere
   * before, the id is the eleven characters after the marker at `i`.
   */
  lemma PrimaryIsFirstMatch(url: string, i: nat)
    requires PrimaryAt(url, i).Some?
    requires forall j :: 0 <= j < i ==> PrimaryAt(url, j).None?
    ensures ExtractYoutubeId(url) == PrimaryAt(url, i)
    ensures IsVideoId(ExtractYoutubeId(url).value)
  {
    assert i <= |url| by {
      var m :| m in Markers && MarkerMatch(url, i, m);
    }
    var k := Search(url, 0, PrimaryAt);
    assert k.Some?;
    assert k.value == i;
  }

  /** Markers start with distinct characters, so at most one of them occurs at an index. */
  lemma MarkersExclusive(s: string, i: int, m1: string, m2: string)
    requires m1 in Markers && m2 in Markers
    requires OccursAt(s, m1, i) && OccursAt(s, m2, i)
    ensures m1 == m2
  {
    assert s[i] == s[i..i + |m1|][0] == m1[0];
    assert s[i] == s[i..i + |m2|][0] == m2[0];
  }

  /** Marker `m` followed by an id, at index `i`, is a primary match whose group is that id. */
  lemma MarkerThenId(u: string, i: nat, m: string, id: string)
    requires m in Markers && IsVideoId(id)
    requires i + |m| + |id| <= |u| && u[i..i + |m|] == m && u[i + |m|..i + |m| + |id|] == id
    ensures PrimaryAt(u, i) == Some(id)
  {
    assert MarkerMatch(u, i, m) by {
      forall k | i + |m| <= k < i + |m| + IdLength ensures IsIdChar(u[k]) {
        assert u[k] == id[k - i - |m|];
      }
    }
    forall mk | mk in Markers && MarkerMatch(u, i, mk) ensures u[i + |mk|..i + |mk| + IdLength] == id {
      MarkersExclusive(u, i, m, mk);
    }
  }

  /** Every marker is at most nine characters long. */
  lemma MarkerLength(mk: string)
    requires mk in Markers
    ensures 2 <= |mk| <= 9
  {
  }

  /**
   * A marker cannot start inside `prefix + m` and end inside the id that follows,
   * since its last character is not an id character; being short, it cannot reach
   * past the id into the suffix either.
   */
  lemma NoMatchBeforeMarker(prefix: string, m: string, id: string, suffix: string, j: nat, mk: string)
    requires m in Markers && mk in Markers && IsVideoId(id) && j < |prefix|
    requires forall j', mk' :: 0 <= j' < |prefix| && mk' in Markers ==> !OccursAt(prefix + m, mk', j')
    ensures !OccursAt(prefix + m + id + suffix, mk, j)
  {
    var u := prefix + m + id + suffix;
    var i := |prefix|;
    MarkerLength(mk);
    MarkerLength(m);
    if j + |mk| <= i + |m| {
      assert u[..i + |m|] == prefix + m;
      assert !OccursAt(prefix + m, mk, j);
      assert u[j..j + |mk|] == (prefix + m)[j..j + |mk|];
    } else if j + |mk| <= |u| {
      MarkerEndsOutsideIdClass(mk);
      var last := j + |mk| - 1;
      assert last < i + |m| + |id|;
      assert u[last] == id[last - (i + |m|)];
      assert IsIdChar(u[last]);
      assert !IsIdChar(mk[|mk| - 1]) by {
        assert mk == "v=" || mk == "youtu.be/" || mk == "embed/" || mk == "live/";
      }
      assert u[j..j + |mk|][|mk| - 1] == u[last];
    }
  }

  /**
   * Every URL shape the primary pattern knows gives back its id, whatever follows the
   * id (`&t=10s`, `?si=...`): when `prefix + m` holds no marker before the marker `m`
   * itself, the URL `prefix + m + id + suffix` yields `id`.
   */
  lemma CanonicalUrl(prefix: string, m: string, id: string, suffix: string)
    requires m in Markers && IsVideoId(id)
    requires forall j, mk :: 0 <= j < |prefix| && mk in Markers ==> !OccursAt(prefix + m, mk, j)
    ensures ExtractYoutubeId(prefix + m + id + suffix) == Some(id)
  {
    var u := prefix + m + id + suffix;
    var i := |prefix|;
    MarkerThenId(u, i, m, id);
    forall j | 0 <= j < i ensures PrimaryAt(u, j).None? {
      NoPrimaryBeforeMarker(prefix, m, id, suffix, j);
    }
    PrimaryIsFirstMatch(u, i);
  }

  /** Hence the primary pattern matches nowhere inside `prefix`. */
  lemma NoPrimaryBeforeMarker(prefix: string, m: string, id: string, suffix: string, j: nat)
    requires m in Markers && IsVideoId(id) && j < |prefix|
    requires forall j', mk' :: 0 <= j' < |prefix| && mk' in Markers ==> !OccursAt(prefix + m, mk', j')
    ensures PrimaryAt(prefix + m + id + suffix, j).None?
  {
    forall mk | mk in Markers ensures !OccursAt(prefix + m + id + suffix, mk, j) {
      NoMatchBeforeMarker(prefix, m, id, suffix, j, mk);
    }
  }

  /**
   * None of the patterns and none of the fallback substrings: no id. A URL without
   * `v=`, `youtu.be/`, `embed/`, `live/` and `googleusercontent.com/youtube.com/`
   * gives None.
   */
  lemma NoMarkerNoId(url: string)
    requires forall m :: m in Markers ==> !Contains(url, m)
    requires !Contains(url, UsercontentMarker)
    ensures ExtractYoutubeId(url).None?
  {
    forall j | 0 <= j <= |url| ensures PrimaryAt(url, j).None? {
      forall m | m in Markers ensures !OccursAt(url, m, j) {
        assert !Contains(url, m);
      }
    }
    forall j | 0 <= j <= |url| ensures UsercontentAt(url, j).None? {
      assert !OccursAt(url, UsercontentMarker, j);
    }
    assert "v=" in Markers && !Contains(url, "v=");
    assert OccursAt(WatchMarker, "v=", 18);
    ContainsPart(url, WatchMarker, 18, "v=");
    assert !Contains(url, ShortMarker) by {
      assert ShortMarker in Markers;
    }
    assert OccursAt(UsercontentOneMarker, UsercontentMarker, 0);
    ContainsPart(url, UsercontentOneMarker, 0, UsercontentMarker);
  }

  /**
   * Exactly when no id comes out: the primary pattern matches at no index, the
   * googleusercontent pattern matches at no index, and none of the three fallback
   * substrings is in the URL. So `https://x/embed/abc`, whose marker is not followed by
   * eleven id characters, gives None.
   */
  lemma NoIdExactly(url: string)
    ensures ExtractYoutubeId(url).None? <==>
              && (forall j :: 0 <= j <= |url| ==> PrimaryAt(url, j).None?)
              && (forall j :: 0 <= j <= |url| ==> UsercontentAt(url, j).None?)
              && !Contains(url, WatchMarker) && !Contains(url, ShortMarker) && !Contains(url, UsercontentOneMarker)
  {
    var p := Search(url, 0, PrimaryAt);
    var u := Search(url, 0, UsercontentAt);
    if p.None? && u.None? {
      assert ExtractYoutubeId(url) == UsercontentOrFallback(url);
    }
  }

  /** Every marker ends in '=' or '/', neither of which is an id character. */
  lemma MarkerEndsOutsideIdClass(m: string)
    requires m in Markers || m == UsercontentMarker || m == WatchMarker || m == ShortMarker || m == UsercontentOneMarker
    ensures |m| > 0 && exists k :: 0 <= k < |m| && !IsIdChar(m[k])
  {
    if m == UsercontentOneMarker {
      assert !IsIdChar(m[|m| - 2]);
    } else {
      assert !IsIdChar(m[|m| - 1]);
    }
  }

  /** A pattern holding a character outside the id class never occurs in an id-only string. */
  lemma NoMarkerInIdOnly(s: string, m: string, j: int)
    requires forall k :: 0 <= k < |s| ==> IsIdChar(s[k])
    requires exists k :: 0 <= k < |m| && !IsIdChar(m[k])
    ensures !OccursAt(s, m, j)
  {
    var k :| 0 <= k < |m| && !IsIdChar(m[k]);
    if 0 <= j && j + |m| <= |s| {
      assert s[j..j + |m|][k] == s[j + k];
    }
  }

  /** Such a pattern is not contained in an id-only string either. */
  lemma NotContainedInIdOnly(s: string, m: string)
    requires forall k :: 0 <= k < |s| ==> IsIdChar(s[k])
    requires exists k :: 0 <= k < |m| && !IsIdChar(m[k])
    ensures !Contains(s, m)
  {
    forall j | 0 <= j ensures !OccursAt(s, m, j) {
      NoMarkerInIdOnly(s, m, j);
    }
  }

  /**
   * Extraction is not idempotent: an id on its own (with no URL around it) contains
   * none of the markers, so `extract_youtube_id` gives None for it.
   */
  lemma BareIdNotExtracted(id: string)
    requires IsVideoId(id)
    ensures ExtractYoutubeId(id).None?
  {
    forall j | 0 <= j <= |id| ensures PrimaryAt(id, j).None? {
      forall m | m in Markers ensures !MarkerMatch(id, j, m) {
        MarkerEndsOutsideIdClass(m);
        NoMarkerInIdOnly(id, m, j);
      }
    }
    forall j | 0 <= j <= |id| ensures UsercontentAt(id, j).None? {
      MarkerEndsOutsideIdClass(UsercontentMarker);
      NoMarkerInIdOnly(id, UsercontentMarker, j);
    }
    MarkerEndsOutsideIdClass(WatchMarker);
    NotContainedInIdOnly(id, WatchMarker);
    MarkerEndsOutsideIdClass(ShortMarker);
    NotContainedInIdOnly(id, ShortMarker);
    MarkerEndsOutsideIdClass(UsercontentOneMarker);
    NotContainedInIdOnly(id, UsercontentOneMarker);
  }
}
