/** lib/screenshot-service.js: capture each non-empty URL in turn into one
    temporary directory, then join the captured files side by side into one
    image named by the date. */
module ScreenshotService {
  import opened JsValues
  import DateStamp

  const OutputTmp: string := "output_images/tmp/"
  const OutputCombined: string := "output_images/combined/"

  /** `childArgs(url)`. */
  function ChildArgs(url: string): (r: seq<string>)
    ensures |r| == 4 && r[3] == url
    ensures r[..3] == ["--fullsize", "--datestamp", "--dir=" + OutputTmp]
  {
    ["--fullsize", "--datestamp", "--dir=" + OutputTmp, url]
  }

  /** The constructor's argument: one URL string or a list of them. */
  datatype UrlArg = One(s: string) | Many(list: seq<Option<string>>)

  /** `(typeof url === 'string') ? [url] : url` */
  function UrlList(arg: UrlArg): seq<Option<string>> {
    match arg
    case One(s) => [Some(s)]
    case Many(list) => list
  }

  /** `processUrl`: a falsy URL finishes at once, a truthy one launches exactly
      one capture. */
  function ProcessUrl(url: Option<string>): (r: Option<seq<string>>)
    ensures r.Some? <==> Truthy(url)
    ensures r.Some? ==> |r.value| == 4 && r.value[3] == url.value
  {
    if Truthy(url) then Some(ChildArgs(url.value)) else None
  }

  /** The number of truthy URLs in `urls`. */
  function TruthyCount(urls: seq<Option<string>>): nat {
    if urls == [] then 0
    else TruthyCount(urls[..|urls| - 1]) + (if Truthy(urls[|urls| - 1]) then 1 else 0)
  }

  /** The captures `async.eachSeries` launches, one after the other, in list order. */
  function Captures(urls: seq<Option<string>>): (r: seq<seq<string>>)
    ensures |r| == TruthyCount(urls)
    ensures forall k :: 0 <= k < |r| ==> |r[k]| == 4 && r[k] == ChildArgs(r[k][3]) && r[k][3] != ""
  {
    if urls == [] then []
    else
      var last := ProcessUrl(urls[|urls| - 1]);
      Captures(urls[..|urls| - 1]) + (if last.Some? then [last.value] else [])
  }

  /** The capture of the `i`-th URL, when it is truthy, is the one launched after
      the captures of the truthy URLs before it: input order is kept. */
  lemma {:induction false} CaptureOfEachUrl(urls: seq<Option<string>>, i: nat)
    requires i < |urls| && Truthy(urls[i])
    ensures TruthyCount(urls[..i]) < |Captures(urls)|
    ensures Captures(urls)[TruthyCount(urls[..i])] == ChildArgs(urls[i].value)
  {
    var n := |urls|;
    var pre := urls[..n - 1];
    if i == n - 1 {
      assert urls[..i] == pre;
    } else {
      assert pre[..i] == urls[..i];
      CaptureOfEachUrl(pre, i);
    }
  }

  /** A single string starts one capture, or none when it is empty. */
  lemma SingleUrlRun(s: string)
    ensures |Captures(UrlList(One(s)))| == (if s == "" then 0 else 1)
  {
    assert UrlList(One(s))[..0] == [];
  }

  /** The file `convert` writes: a file of the combined directory whose name is
      the digits of the date followed by `.png`. */
  function OutputPath(year: nat, month: nat, day: nat): (p: string)
    ensures p == OutputCombined + DateStamp.Stamp(year, month, day) + ".png"
    ensures |p| > |OutputCombined| + 4
    ensures p[..|OutputCombined|] == OutputCombined && p[|p| - 4..] == ".png"
    ensures AllDigits(p[|OutputCombined|..|p| - 4])
  {
    assert (OutputCombined + DateStamp.Stamp(year, month, day) + ".png")[|OutputCombined|..|OutputCombined| + |DateStamp.Stamp(year, month, day)|]
      == DateStamp.Stamp(year, month, day);
    OutputCombined + DateStamp.Stamp(year, month, day) + ".png"
  }

  /** `processComplete`: the ImageMagick arguments for the found files. */
  method ConvertArgs(files: seq<string>, year: nat, month: nat, day: nat) returns (args: seq<string>)
    ensures |args| == |files| + 2
    ensures args[0] == "+append"
    ensures args[1..|files| + 1] == files
    ensures args[|files| + 1] == OutputPath(year, month, day)
  {
    args := [];
    args := args + ["+append"];
    var i, c := 0, |files|;
    while i < c
      invariant 0 <= i <= c
      invariant args == ["+append"] + files[..i]
    {
      args := args + [files[i]];
      i := i + 1;
    }
    args := args + [OutputPath(year, month, day)];
  }
}
