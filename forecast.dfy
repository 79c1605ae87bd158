/**
 * The selection logic of `get_weather_data`, over a location's weather elements once
 * they have been fetched and decoded: the Wx forecast whose start is nearest to now,
 * its part of the day, and the PoP, MinT and MaxT values of the period holding it.
 *
 * A time is a whole number of microseconds counted from a local midnight, the resolution
 * of `datetime.now()`, so that its hour of the day is (t % MicrosPerDay) / MicrosPerHour;
 * a parsed time string is a whole second, and one that `strptime` rejects is None.
 */
module Forecast {
  import opened Wrappers

  /** One entry of an element's `time` list: startTime, endTime, parameter.parameterName. */
  datatype TimeEntry = TimeEntry(startTime: Option<int>, endTime: Option<int>, parameterName: string)

  const MicrosPerSecond: int := 1_000_000
  const MicrosPerHour: int := 3600 * MicrosPerSecond
  const MicrosPerDay: int := 24 * MicrosPerHour

  datatype WeatherElement = WeatherElement(elementName: string, time: seq<TimeEntry>)

  /** The four parts of the day the display text names. */
  datatype TimeOfDay = MidnightToMorning | MorningToNoon | NoonToEvening | EveningToMidnight
  {
    function Label(): string
    {
      match this
      case MidnightToMorning => "午夜到早晨"
      case MorningToNoon => "早晨到中午"
      case NoonToEvening => "中午到傍晚"
      case EveningToMidnight => "傍晚到午夜"
    }
  }

  /** The fields of a successful result. */
  datatype Report = Report(description: string, startTime: int, timeOfDay: TimeOfDay,
                           minTemp: string, maxTemp: string, pop: string)

  datatype ForecastError =
    | MissingWx          // no element named Wx
    | NoValidStartTime   // no Wx entry whose startTime parses
    | UnparsableTime     // strptime raised inside a PoP/MinT/MaxT loop

  const NotAvailable: string := "N/A"

  /** `next((elem for elem in elements if elem['elementName'] == name), None)`. */
  function FindElement(elements: seq<WeatherElement>, name: string): (r: Option<WeatherElement>)
    ensures r.Some? ==> r.value in elements && r.value.elementName == name
    ensures r.None? <==> forall e :: e in elements ==> e.elementName != name
  {
    if elements == [] then None
    else if elements[0].elementName == name then Some(elements[0])
    else FindElement(elements[1..], name)
  }

  /** `next` returns the first element with the name: every element before it has another name. */
  lemma {:induction false} FindElementFirst(elements: seq<WeatherElement>, name: string)
    ensures var r := FindElement(elements, name);
            r.Some? ==> exists k :: 0 <= k < |elements| && elements[k] == r.value
                                    && forall j :: 0 <= j < k ==> elements[j].elementName != name
    decreases |elements|
  {
    if elements != [] && elements[0].elementName != name {
      var rest := FindElement(elements[1..], name);
      FindElementFirst(elements[1..], name);
      if rest.Some? {
        var k :| 0 <= k < |elements[1..]| && elements[1..][k] == rest.value
                 && forall j :: 0 <= j < k ==> elements[1..][j].elementName != name;
        assert elements[k + 1] == rest.value;
        forall j | 0 <= j < k + 1 ensures elements[j].elementName != name {
          if j > 0 {
            assert elements[j] == elements[1..][j - 1];
          }
        }
      }
    } else if elements != [] {
      assert elements[0] == FindElement(elements, name).value;
    }
  }

  // ---------------------------------------------------------------- Wx entries

  /** The Wx entries whose startTime parses, in their original order. */
  function ParsedEntries(entries: seq<TimeEntry>): (r: seq<TimeEntry>)
    ensures |r| <= |entries|
    ensures forall k :: 0 <= k < |r| ==> r[k].startTime.Some?
    ensures forall e :: e in r <==> e in entries && e.startTime.Some?
  {
    if entries == [] then []
    else if entries[0].startTime.Some? then [entries[0]] + ParsedEntries(entries[1..])
    else ParsedEntries(entries[1..])
  }

  /** The loop that keeps the entries `strptime` accepts (`valid_time_elements`). */
  method ValidTimeElements(entries: seq<TimeEntry>) returns (valid: seq<TimeEntry>)
    ensures valid == ParsedEntries(entries)
  {
    valid := [];
    for i := 0 to |entries|
      invariant valid == ParsedEntries(entries[..i])
    {
      ParsedAppend(entries[..i], entries[i]);
      assert entries[..i + 1] == entries[..i] + [entries[i]];
      if entries[i].startTime.Some? {
        valid := valid + [entries[i]];
      }
    }
    assert entries[..|entries|] == entries;
  }

  /** Filtering one more entry appends it exactly when its start parses. */
  lemma {:induction false} ParsedAppend(entries: seq<TimeEntry>, e: TimeEntry)
    ensures ParsedEntries(entries + [e]) ==
              ParsedEntries(entries) + (if e.startTime.Some? then [e] else [])
    decreases |entries|
  {
    if entries != [] {
      assert (entries + [e])[1..] == entries[1..] + [e];
      ParsedAppend(entries[1..], e);
    } else {
      assert [e][1..] == [];
    }
  }

  function Distance(e: TimeEntry, now: int): nat
    requires e.startTime.Some?
  {
    if e.startTime.value >= now then e.startTime.value - now else now - e.startTime.value
  }

  /**
   * `min(valid, key=lambda x: abs(start(x) - now))`: the index of the entry whose start
   * is nearest to now, the first one among equally near entries.
   */
  function Nearest(entries: seq<TimeEntry>, now: int): (k: nat)
    requires |entries| > 0
    requires forall j :: 0 <= j < |entries| ==> entries[j].startTime.Some?
    ensures k < |entries|
    ensures forall j :: 0 <= j < |entries| ==> Distance(entries[k], now) <= Distance(entries[j], now)
    ensures forall j :: 0 <= j < k ==> Distance(entries[j], now) > Distance(entries[k], now)
  {
    if |entries| == 1 then 0
    else
      var last := |entries| - 1;
      var k := Nearest(entries[..last], now);
      assert entries[..last][k] == entries[k];
      if Distance(entries[last], now) < Distance(entries[k], now) then last else k
  }

  /**
   * The clock's fraction of a second decides between starts equally far from the whole
   * second: with starts 06:00:00 and 18:00:00 and the clock at 12:00:00.25, the later
   * start is the nearer one.
   */
  lemma SubSecondClockDecidesTie()
    ensures var entries := [TimeEntry(Some(6 * MicrosPerHour), None, "a"), TimeEntry(Some(18 * MicrosPerHour), None, "b")];
            Nearest(entries, 12 * MicrosPerHour + MicrosPerSecond / 4) == 1
  {
    var entries := [TimeEntry(Some(6 * MicrosPerHour), None, "a"), TimeEntry(Some(18 * MicrosPerHour), None, "b")];
    var now := 12 * MicrosPerHour + MicrosPerSecond / 4;
    assert Distance(entries[1], now) < Distance(entries[0], now);
  }

  // ---------------------------------------------------------------- time of day

  /** `start_dt.hour`. */
  function HourOf(t: int): (h: int)
    ensures 0 <= h < 24
  {
    (t % MicrosPerDay) / MicrosPerHour
  }

  /** The conditional expression that names the part of the day of `hour`. */
  function Bucket(hour: int): (d: TimeOfDay)
    ensures d == MidnightToMorning <==> 0 <= hour < 6
    ensures d == MorningToNoon <==> 6 <= hour < 12
    ensures d == NoonToEvening <==> 12 <= hour < 18
    ensures d == EveningToMidnight <==> hour < 0 || 18 <= hour
  {
    if 0 <= hour < 6 then MidnightToMorning
    else if 6 <= hour < 12 then MorningToNoon
    else if 12 <= hour < 18 then NoonToEvening
    else EveningToMidnight
  }

  /** For an hour of the day the last part is exactly [18, 24), and the four labels differ. */
  lemma BucketOfTime(t: int)
    ensures var h := HourOf(t);
            Bucket(h) == EveningToMidnight <==> 18 <= h < 24
    ensures forall d1: TimeOfDay, d2: TimeOfDay :: d1 != d2 ==> d1.Label() != d2.Label()
  {
    assert "午夜到早晨"[1] != "早晨到中午"[1] && "午夜到早晨"[1] != "中午到傍晚"[1];
    assert "午夜到早晨"[1] != "傍晚到午夜"[1] && "早晨到中午"[1] != "中午到傍晚"[1];
    assert "早晨到中午"[1] != "傍晚到午夜"[1] && "中午到傍晚"[1] != "傍晚到午夜"[1];
  }

  // ---------------------------------------------------------------- period lookup

  predicate Parsed(p: TimeEntry)
  {
    p.startTime.Some? && p.endTime.Some?
  }

  /** `start <= t < end` for a period whose times parse. */
  predicate Holds(p: TimeEntry, t: int)
    requires Parsed(p)
  {
    p.startTime.value <= t < p.endTime.value
  }

  /** How the scan over a period list ends. */
  datatype Scan = Found(index: nat) | Unparsable(index: nat) | NotFound

  /**
   * The loop over `element['time']` from index `i`: it parses each period's start and end
   * (raising on the first that does not parse) and stops at the first period holding `t`.
   */
  function ScanFrom(periods: seq<TimeEntry>, t: int, i: nat): (r: Scan)
    ensures r.Found? ==> i <= r.index < |periods| && Parsed(periods[r.index]) && Holds(periods[r.index], t)
    ensures r.Unparsable? ==> i <= r.index < |periods| && !Parsed(periods[r.index])
    ensures !r.NotFound? ==> forall j :: i <= j < r.index ==> Parsed(periods[j]) && !Holds(periods[j], t)
    ensures r.NotFound? ==> forall j :: i <= j < |periods| ==> Parsed(periods[j]) && !Holds(periods[j], t)
    decreases |periods| - i
  {
    if i >= |periods| then NotFound
    else if !Parsed(periods[i]) then Unparsable(i)
    else if Holds(periods[i], t) then Found(i)
    else ScanFrom(periods, t, i + 1)
  }

  /**
   * The PoP rule, with a flag: the value of the first period holding `t`, else that of
   * the first period, else "N/A"; `suffix` is appended to a value taken from a period.
   */
  function FlagLookup(element: Option<WeatherElement>, t: int, suffix: string): (r: Result<string, ForecastError>)
  {
    if element.None? then Ok(NotAvailable)
    else
      var periods := element.value.time;
      match ScanFrom(periods, t, 0)
      case Unparsable(_) => Err(UnparsableTime)
      case Found(k) => Ok(periods[k].parameterName + suffix)
      case NotFound => if |periods| > 0 then Ok(periods[0].parameterName + suffix) else Ok(NotAvailable)
  }

  /** The PoP value: the flag rule with a "%" suffix. */
  function PopValue(element: Option<WeatherElement>, t: int): Result<string, ForecastError>
  {
    FlagLookup(element, t, "%")
  }

  /**
   * The MinT/MaxT rule: no flag, the fallback runs when the value is still "N/A", so a
   * holding period whose value is itself "N/A" gives way to the first period's value.
   */
  function TempValue(element: Option<WeatherElement>, t: int): Result<string, ForecastError>
  {
    if element.None? then Ok(NotAvailable)
    else
      var periods := element.value.time;
      match ScanFrom(periods, t, 0)
      case Unparsable(_) => Err(UnparsableTime)
      case Found(k) =>
        if periods[k].parameterName == NotAvailable then Ok(periods[0].parameterName)
        else Ok(periods[k].parameterName)
      case NotFound => if |periods| > 0 then Ok(periods[0].parameterName) else Ok(NotAvailable)
  }

  /**
   * The period rule: an absent element gives "N/A"; otherwise, when every period parses,
   * the first period holding `t` gives its value, none holding it gives the first
   * period's value, and no period at all gives "N/A".
   */
  lemma PeriodLookupRule(element: Option<WeatherElement>, t: int, suffix: string)
    ensures element.None? ==> FlagLookup(element, t, suffix) == Ok(NotAvailable)
    ensures element.Some? && element.value.time == [] ==> FlagLookup(element, t, suffix) == Ok(NotAvailable)
    ensures element.Some? && (forall j :: 0 <= j < |element.value.time| ==> Parsed(element.value.time[j])) ==>
              var periods := element.value.time;
              forall k :: 0 <= k < |periods| && Holds(periods[k], t) &&
                          (forall j :: 0 <= j < k ==> !Holds(periods[j], t)) ==>
                FlagLookup(element, t, suffix) == Ok(periods[k].parameterName + suffix)
    ensures element.Some? && element.value.time != [] &&
            (forall j :: 0 <= j < |element.value.time| ==>
               Parsed(element.value.time[j]) && !Holds(element.value.time[j], t)) ==>
              FlagLookup(element, t, suffix) == Ok(element.value.time[0].parameterName + suffix)
  {
    if element.Some? {
      var periods := element.value.time;
      var s := ScanFrom(periods, t, 0);
      if s.Unparsable? {
        assert !Parsed(periods[s.index]);
      }
    }
  }

  /**
   * MinT/MaxT follow the same rule as PoP (without the suffix) except when the period
   * holding `t` has the value "N/A": then they report the first period's value.
   */
  lemma TempValueVersusFlag(element: Option<WeatherElement>, t: int)
    ensures element.Some? && ScanFrom(element.value.time, t, 0).Found? ==>
              var periods := element.value.time;
              var k := ScanFrom(periods, t, 0).index;
              (periods[k].parameterName != NotAvailable ==> TempValue(element, t) == FlagLookup(element, t, ""))
              && (periods[k].parameterName == NotAvailable ==> TempValue(element, t) == Ok(periods[0].parameterName))
    ensures !(element.Some? && ScanFrom(element.value.time, t, 0).Found?) ==>
              TempValue(element, t) == FlagLookup(element, t, "")
  {
    if element.Some? {
      var periods := element.value.time;
      match ScanFrom(periods, t, 0)
      case Found(k) =>
        assert periods[k].parameterName + "" == periods[k].parameterName;
      case Unparsable(_) =>
      case NotFound =>
        if |periods| > 0 {
          assert periods[0].parameterName + "" == periods[0].parameterName;
        }
    }
  }

  /** The PoP loop, with its `pop_data_found` flag and `break`. */
  method LookupPoP(element: Option<WeatherElement>, t: int) returns (r: Result<string, ForecastError>)
    ensures r == PopValue(element, t)
  {
    var pop := NotAvailable;
    if element.Some? {
      var periods := element.value.time;
      var found := false;
      for i := 0 to |periods|
        invariant !found
        invariant ScanFrom(periods, t, 0) == ScanFrom(periods, t, i)
      {
        var p := periods[i];
        if p.startTime.None? || p.endTime.None? {
          return Err(UnparsableTime);
        }
        if p.startTime.value <= t < p.endTime.value {
          pop := p.parameterName + "%";
          found := true;
          break;
        }
      }
      if !found && |periods| > 0 {
        pop := periods[0].parameterName + "%";
      }
    }
    return Ok(pop);
  }

  /** The MinT/MaxT loop: `break` on the holding period, then the "N/A" fallback test. */
  method LookupTemp(element: Option<WeatherElement>, t: int) returns (r: Result<string, ForecastError>)
    ensures r == TempValue(element, t)
  {
    var temp := NotAvailable;
    if element.Some? {
      var periods := element.value.time;
      for i := 0 to |periods|
        invariant temp == NotAvailable
        invariant ScanFrom(periods, t, 0) == ScanFrom(periods, t, i)
      {
        var p := periods[i];
        if p.startTime.None? || p.endTime.None? {
          return Err(UnparsableTime);
        }
        if p.startTime.value <= t < p.endTime.value {
          temp := p.parameterName;
          break;
        }
      }
      if temp == NotAvailable && |periods| > 0 {
        temp := periods[0].parameterName;
      }
    }
    return Ok(temp);
  }

  // ---------------------------------------------------------------- the whole selection

  /** What `get_weather_data` reports for a location whose elements are `elements`. */
  function ForecastOf(elements: seq<WeatherElement>, now: int): Result<Report, ForecastError>
  {
    var wx := FindElement(elements, "Wx");
    if wx.None? then Err(MissingWx)
    else
      var valid := ParsedEntries(wx.value.time);
      if valid == [] then Err(NoValidStartTime)
      else
        var forecast := valid[Nearest(valid, now)];
        var start := forecast.startTime.value;
        var pop := PopValue(FindElement(elements, "PoP"), start);
        var minT := TempValue(FindElement(elements, "MinT"), start);
        var maxT := TempValue(FindElement(elements, "MaxT"), start);
        if pop.Err? then Err(pop.error)
        else if minT.Err? then Err(minT.error)
        else if maxT.Err? then Err(maxT.error)
        else Ok(Report(forecast.parameterName, start, Bucket(HourOf(start)), minT.value, maxT.value, pop.value))
  }

  /**
   * The selection fails with MissingWx exactly when there is no Wx element, and with
   * NoValidStartTime exactly when no Wx start time parses.
   */
  lemma ForecastErrors(elements: seq<WeatherElement>, now: int)
    ensures ForecastOf(elements, now) == Err(MissingWx) <==> FindElement(elements, "Wx").None?
    ensures ForecastOf(elements, now) == Err(NoValidStartTime) <==>
              FindElement(elements, "Wx").Some? &&
              forall e :: e in FindElement(elements, "Wx").value.time ==> e.startTime.None?
  {
    var wx := FindElement(elements, "Wx");
    if wx.Some? {
      var valid := ParsedEntries(wx.value.time);
      if valid == [] {
        forall e | e in wx.value.time ensures e.startTime.None? {
          assert e !in valid;
        }
      } else {
        assert valid[0] in valid;
      }
    }
  }

  /**
   * A successful report describes a Wx entry whose start parses and is at least as near
   * to now as every other such entry, and names the part of the day of that start.
   */
  lemma ForecastIsNearest(elements: seq<WeatherElement>, now: int)
    requires ForecastOf(elements, now).Ok?
    ensures FindElement(elements, "Wx").Some?
    ensures var r := ForecastOf(elements, now).value;
            var wx := FindElement(elements, "Wx").value;
            exists e :: e in wx.time && e.startTime == Some(r.startTime) && e.parameterName == r.description &&
                        forall e' :: e' in wx.time && e'.startTime.Some? ==> Distance(e, now) <= Distance(e', now)
    ensures var r := ForecastOf(elements, now).value;
            r.timeOfDay == Bucket(HourOf(r.startTime))
  {
    var wx := FindElement(elements, "Wx").value;
    var valid := ParsedEntries(wx.time);
    var k := Nearest(valid, now);
    var e := valid[k];
    var r := ForecastOf(elements, now).value;
    assert r.startTime == e.startTime.value && r.description == e.parameterName;
    assert e in wx.time;
    forall e' | e' in wx.time && e'.startTime.Some? ensures Distance(e, now) <= Distance(e', now) {
      assert e' in valid;
      var j :| 0 <= j < |valid| && valid[j] == e';
    }
  }

  /** `get_weather_data` past the HTTP call: the steps run in the source's order. */
  method SelectForecast(elements: seq<WeatherElement>, now: int) returns (r: Result<Report, ForecastError>)
    ensures r == ForecastOf(elements, now)
  {
    var wx := FindElement(elements, "Wx");
    if wx.None? {
      return Err(MissingWx);
    }
    var valid := ValidTimeElements(wx.value.time);
    if valid == [] {
      return Err(NoValidStartTime);
    }
    var forecast := valid[Nearest(valid, now)];
    var start := forecast.startTime.value;
    var timeOfDay := Bucket(HourOf(start));
    var pop := LookupPoP(FindElement(elements, "PoP"), start);
    if pop.Err? {
      return Err(pop.error);
    }
    var minT := LookupTemp(FindElement(elements, "MinT"), start);
    if minT.Err? {
      return Err(minT.error);
    }
    var maxT := LookupTemp(FindElement(elements, "MaxT"), start);
    if maxT.Err? {
      return Err(maxT.error);
    }
    return Ok(Report(forecast.parameterName, start, timeOfDay, minT.value, maxT.value, pop.value));
  }
}
