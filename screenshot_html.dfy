/** lib/screenshot-html.js: the variant that captures without overrides. Its
    grouping state and `validateGroups` are those of `Grouping.UrlGroups`; what
    differs is the fixed four-element argument list. */
module ScreenshotHtml {
  import opened JsValues
  import opened Grouping
  import DateStamp
  import Screenshot

  /** `childArgs(url, outputTmp, index)`: the list of lib/screenshot.js without
      `--clipwidth=1` and without overrides. */
  function ChildArgs(url: string, outputTmp: string, index: string): (r: seq<string>)
    ensures |r| == 4 && r[3] == url
    ensures r[..3] == Screenshot.ChildArgs(url, outputTmp, index, None)[..3]
  {
    ["--fullsize", "--dir=" + outputTmp, "--filename=" + index, url]
  }

  /** Removing `--clipwidth=1` from the other script's list, called without
      overrides, gives exactly this one. */
  lemma SameAsScriptArgsWithoutClip(url: string, outputTmp: string, index: string)
    ensures var full := Screenshot.ChildArgs(url, outputTmp, index, None);
      full[3] == "--clipwidth=1" && ChildArgs(url, outputTmp, index) == full[..3] + full[4..]
  {
  }

  /** `processUrl` for one validated entry, as written: the `!url` test never
      holds for a record, so every entry with a string url is captured, an empty
      one too; a `null` list element yields no string argument list. */
  function CaptureArgsAsWritten(e: Item, temp: string): (r: Option<seq<string>>)
    requires IsEntry(e)
    ensures r.Some? <==> e.url.Some?
    ensures r.Some? ==> r.value == ChildArgs(e.url.value, temp + "/" + GroupOf(e) + "/", Decimal(e.index.value))
  {
    if SkippedAsWritten(e) || e.url.None? then None
    else Some(ChildArgs(e.url.value, temp + "/" + e.group.value + "/", Decimal(e.index.value)))
  }

  /** `processUrl` for one validated entry, with the intended skip test. */
  function CaptureArgs(e: Item, temp: string): (r: Option<seq<string>>)
    requires IsEntry(e)
    ensures r.None? <==> !Truthy(e.url)
    ensures r.Some? ==> r.value == ChildArgs(e.url.value, temp + "/" + GroupOf(e) + "/", Decimal(e.index.value))
    ensures r.Some? ==> |r.value| == 4
    ensures r.Some? ==> r.value[1] == "--dir=" + temp + "/" + GroupOf(e) + "/"
    ensures r.Some? ==> r.value[2] == "--filename=" + Decimal(e.index.value)
    ensures r.Some? ==> Some(r.value[3]) == e.url
  {
    if Skipped(e) then None
    else Some(ChildArgs(e.url.value, temp + "/" + e.group.value + "/", Decimal(e.index.value)))
  }

  /** The two tests agree on every truthy url and disagree on an empty one, which
      the script captures and the intended test skips. */
  lemma CaptureAsWrittenVersusIntended(e: Item, temp: string)
    requires IsEntry(e)
    ensures Truthy(e.url) ==> CaptureArgsAsWritten(e, temp) == CaptureArgs(e, temp)
    ensures e.url == Some("") ==>
      (CaptureArgs(e, temp).None? && CaptureArgsAsWritten(e, temp).Some? && CaptureArgsAsWritten(e, temp).value[3] == "")
  {
  }

  /** The record `{url: '', group: 'News'}` at position 0 is captured as written. */
  lemma EmptyUrlLaunchedAsWritten(temp: string)
    ensures var e := Normalize(Rec(Some(""), Some("News"), None), 0);
      CaptureArgsAsWritten(e, temp) == Some(["--fullsize", "--dir=" + temp + "/News/", "--filename=0", ""])
      && CaptureArgs(e, temp).None?
  {
    var e := Normalize(Rec(Some(""), Some("News"), None), 0);
    assert Decimal(0) == "0";
    assert GroupOf(e) == "News";
    assert temp + "/" + "News" + "/" == temp + "/News/";
    assert "--dir=" + (temp + "/News/") == "--dir=" + temp + "/News/";
    assert "--filename=" + "0" == "--filename=0";
  }

  /** `screenshotsComplete`: the capture of the rendered report, named by the
      date stamp and written to the output directory. */
  function FinalCaptureArgs(temp: string, output: string, year: nat, month: nat, day: nat): (r: seq<string>)
    ensures |r| == 4 && r[3] == temp + "/template.html"
    ensures r[1] == "--dir=" + output
    ensures r[2] == "--filename=" + DateStamp.Stamp(year, month, day)
  {
    ChildArgs(temp + "/template.html", output, DateStamp.Stamp(year, month, day))
  }
}
