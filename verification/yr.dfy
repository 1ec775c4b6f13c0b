/** The forecast records of the yr package, the accessors on them, and the
    control flow of loading a forecast from a file. Decoding the XML itself
    is not modelled: its outcome is an input. */
module Yr {
  import opened Wrappers
  import opened Decimal

  /** A Go `error` value that is not nil. */
  datatype Error = Error(message: string)

  /** The weather-condition code of one interval (`numberEx`, `var`, `name`). */
  datatype Symbol = Symbol(number: int, variation: string, name: string)

  datatype TempData = TempData(value: int)

  /** One forecast interval; `from` and `to` are kept as the feed's text. */
  datatype Time = Time(from: string, to: string, symbol: Symbol, temperature: TempData)
  {
    /** "<from> to <to>: <temperature> deg.": the text starts with the two
        times and ends with " deg.", and what lies between reads back as
        exactly the temperature. */
    function String(): (s: string)
      ensures var head := from + " to " + to + ": ";
              |s| == |head| + |FormatInt(temperature.value)| + |" deg."| &&
              s[..|head|] == head &&
              s[|s| - |" deg."|..] == " deg." &&
              ParseInt(s[|head|..|s| - |" deg."|]) == Some(temperature.value)
    {
      from + " to " + to + ": " + FormatInt(temperature.value) + " deg."
    }
  }

  datatype Link = Link(id: string, url: string)

  datatype Credit = Credit(text: string, url: string)

  /** A whole forecast: location name, intervals in document order, links, attribution. */
  datatype WeatherData = WeatherData(name: string, time: seq<Time>, links: seq<Link>, credit: Credit)
  {
    /** The first interval. The source indexes without a check, so an empty
        interval list is a fault there and a precondition here. */
    function Current(): (t: Time)
      requires |time| > 0
      ensures t in time
      ensures t == time[0]
    {
      time[0]
    }

    /** The attribution record, as decoded. */
    function GetCredits(): (c: Credit)
      ensures c == credit
    {
      credit
    }

    /** "Current weather for <name>: <symbol name>, <temperature> degrees C":
        the location name, then the current symbol name, then the current
        temperature, which reads back exactly, then " degrees C". */
    function String(): (s: string)
      requires |time| > 0
      ensures var p := "Current weather for " + name + ": ";
              var sym := time[0].symbol.name;
              var num := FormatInt(time[0].temperature.value);
              |p| + |sym| + 2 + |num| + |" degrees C"| == |s| &&
              s[..|p|] == p &&
              s[|p|..|p| + |sym| + 2] == sym + ", " &&
              s[|s| - |" degrees C"|..] == " degrees C" &&
              ParseInt(s[|s| - |" degrees C"| - |num|..|s| - |" degrees C"|]) == Some(time[0].temperature.value)
    {
      "Current weather for " + name + ": " + Current().symbol.name + ", "
        + FormatInt(Current().temperature.value) + " degrees C"
    }
  }

  /** What `xml.Unmarshal` did: the value filled in so far and its error. */
  datatype Decoded = Decoded(value: WeatherData, err: Option<Error>)

  /** What `ioutil.ReadFile` did: an error, or the bytes, here already decoded. */
  datatype FileRead = FileFailed(err: Error) | FileRead(decoded: Decoded)

  /** The two results of a Go call returning `(*WeatherData, error)`. */
  datatype Outcome = Outcome(weatherData: Option<WeatherData>, err: Option<Error>)

  /** LoadFromFile: a read error or a decode error is returned with nil data;
      otherwise the decoded data with a nil error. */
  function LoadFromFile(read: FileRead): (r: Outcome)
    ensures r.weatherData.Some? <==> r.err.None?
    ensures read.FileFailed? ==> r.err == Some(read.err)
    ensures read.FileRead? && read.decoded.err.Some? ==> r.err == read.decoded.err
    ensures r.weatherData.Some? ==> read.FileRead? && r.weatherData.value == read.decoded.value
    ensures read.FileRead? && read.decoded.err.None? ==> r == Outcome(Some(read.decoded.value), None)
  {
    match read
    case FileFailed(e) => Outcome(None, Some(e))
    case FileRead(Decoded(value, err)) =>
      if err.Some? then Outcome(None, err) else Outcome(Some(value), None)
  }
}
