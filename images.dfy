/**
 * Choosing the weather image (`get_image_path_or_default`): the image named after the
 * weather code in the first extension that exists, else the default image in the first
 * extension that exists, else none. The file system is the set of paths that exist.
 */
module Images {
  import opened Wrappers

  /** IMAGE_EXTENSIONS, in the order they are tried. */
  const ImageExtensions: seq<string> := ["png", "gif", "jpg", "jpeg"]

  /** WEATHER_IMAGES_DIR. */
  const WeatherImagesDir: string := "images"

  const DefaultStem: string := "default"

  /** `os.path.join(dir, name)` on POSIX. */
  function Join(dir: string, name: string): (r: string)
    ensures |name| <= |r| && r[|r| - |name|..] == name
    ensures |name| > 0 && name[0] == '/' ==> r == name
  {
    if |name| > 0 && name[0] == '/' then name
    else if dir == "" || dir[|dir| - 1] == '/' then dir + name
    else dir + "/" + name
  }

  /** The paths `dir/stem.ext`, one per extension, in extension order. */
  function Candidates(dir: string, stem: string): (paths: seq<string>)
    ensures |paths| == |ImageExtensions|
  {
    seq(|ImageExtensions|, k requires 0 <= k < |ImageExtensions| => Join(dir, stem + "." + ImageExtensions[k]))
  }

  /** The index of the first path that exists. */
  function FirstExisting(files: set<string>, paths: seq<string>): (r: Option<nat>)
    ensures r.Some? ==> r.value < |paths| && paths[r.value] in files
    ensures r.Some? ==> forall j :: 0 <= j < r.value ==> paths[j] !in files
    ensures r.None? <==> forall j :: 0 <= j < |paths| ==> paths[j] !in files
  {
    if paths == [] then None
    else if paths[0] in files then Some(0)
    else
      var rest := FirstExisting(files, paths[1..]);
      if rest.Some? then Some(rest.value + 1) else None
  }

  /** The path `get_image_path_or_default(dir, code)` returns. */
  function ChosenImage(files: set<string>, dir: string, code: string): (r: Option<string>)
  {
    var specific := Candidates(dir, code);
    var fallback := Candidates(dir, DefaultStem);
    match FirstExisting(files, specific)
    case Some(k) => Some(specific[k])
    case None =>
      match FirstExisting(files, fallback)
      case Some(k) => Some(fallback[k])
      case None => None
  }

  /**
   * The code's own image wins: when one of its candidates exists, the result is the
   * first of them that does; the default is used only when none exists, and then it is
   * the first default that exists; None only when no default exists either.
   */
  lemma ChosenImageOrder(files: set<string>, dir: string, code: string)
    ensures var r := ChosenImage(files, dir, code);
            var specific := Candidates(dir, code);
            var fallback := Candidates(dir, DefaultStem);
            && (r.Some? ==> r.value in files)
            && ((exists k :: 0 <= k < |specific| && specific[k] in files) ==>
                  exists k :: 0 <= k < |specific| && r == Some(specific[k])
                              && forall j :: 0 <= j < k ==> specific[j] !in files)
            && ((forall k :: 0 <= k < |specific| ==> specific[k] !in files) ==>
                  (r.None? <==> forall k :: 0 <= k < |fallback| ==> fallback[k] !in files))
            && ((forall k :: 0 <= k < |specific| ==> specific[k] !in files)
                && (exists k :: 0 <= k < |fallback| && fallback[k] in files) ==>
                  exists k :: 0 <= k < |fallback| && r == Some(fallback[k])
                              && forall j :: 0 <= j < k ==> fallback[j] !in files)
  {
    var specific := Candidates(dir, code);
    var fallback := Candidates(dir, DefaultStem);
    var s := FirstExisting(files, specific);
    if s.Some? {
      assert ChosenImage(files, dir, code) == Some(specific[s.value]);
    } else {
      var d := FirstExisting(files, fallback);
      if d.Some? {
        assert ChosenImage(files, dir, code) == Some(fallback[d.value]);
      }
    }
  }

  /** The first existing path is the one at `i` when it exists and none before it does. */
  lemma FirstExistingAt(files: set<string>, paths: seq<string>, i: nat)
    requires i < |paths| && paths[i] in files
    requires forall j :: 0 <= j < i ==> paths[j] !in files
    ensures FirstExisting(files, paths) == Some(i)
  {
    var r := FirstExisting(files, paths);
    assert r.Some?;
    assert !(r.value < i) && !(i < r.value);
  }

  /** The image of the code's own candidate `i`, when it is the first that exists. */
  lemma ChosenSpecific(files: set<string>, dir: string, code: string, i: nat)
    requires i < |ImageExtensions|
    requires Candidates(dir, code)[i] in files
    requires forall j :: 0 <= j < i ==> Candidates(dir, code)[j] !in files
    ensures ChosenImage(files, dir, code) == Some(Candidates(dir, code)[i])
  {
    FirstExistingAt(files, Candidates(dir, code), i);
  }

  /** The default candidate `i`, when no candidate of the code exists and it is the first default that does. */
  lemma ChosenDefault(files: set<string>, dir: string, code: string, i: nat)
    requires forall j :: 0 <= j < |ImageExtensions| ==> Candidates(dir, code)[j] !in files
    requires i < |ImageExtensions|
    requires Candidates(dir, DefaultStem)[i] in files
    requires forall j :: 0 <= j < i ==> Candidates(dir, DefaultStem)[j] !in files
    ensures ChosenImage(files, dir, code) == Some(Candidates(dir, DefaultStem)[i])
  {
    FirstExistingAt(files, Candidates(dir, DefaultStem), i);
  }

  /** `get_image_path_or_default`: two loops over the extensions, each returning early. */
  method ImagePathOrDefault(files: set<string>, dir: string, code: string) returns (path: Option<string>)
    ensures path == ChosenImage(files, dir, code)
  {
    for i := 0 to |ImageExtensions|
      invariant forall j :: 0 <= j < i ==> Candidates(dir, code)[j] !in files
    {
      var specificPath := Join(dir, code + "." + ImageExtensions[i]);
      if specificPath in files {
        assert specificPath == Candidates(dir, code)[i];
        ChosenSpecific(files, dir, code, i);
        return Some(specificPath);
      }
    }
    for i := 0 to |ImageExtensions|
      invariant forall j :: 0 <= j < i ==> Candidates(dir, DefaultStem)[j] !in files
    {
      var defaultPath := Join(dir, DefaultStem + "." + ImageExtensions[i]);
      if defaultPath in files {
        assert defaultPath == Candidates(dir, DefaultStem)[i];
        ChosenDefault(files, dir, code, i);
        return Some(defaultPath);
      }
    }
    return None;
  }
}
