/** lib/screenshot.js: the webkit2png argument list, the capture of one validated
    entry, the final capture of the rendered report with the path it announces,
    and the style defaults held in `options.styles`. */
module Screenshot {
  import opened JsValues
  import opened Grouping
  import DateStamp

  /** `options.additional`: overrides passed through to the capture tool. */
  datatype Additional = Additional(width: Option<Scalar>, height: Option<Scalar>, agent: Option<string>)

  /** How many of the three overrides are truthy; a missing `additional`
      behaves like `{}`. */
  function FlagCount(additional: Option<Additional>): nat {
    if additional.None? then 0
    else
      var a := additional.value;
      (if ScalarTruthy(a.width) then 1 else 0)
      + (if ScalarTruthy(a.height) then 1 else 0)
      + (if Truthy(a.agent) then 1 else 0)
  }

  /** `childArgs(url, outputTmp, index, additional)`. */
  function ChildArgs(url: string, outputTmp: string, index: string, additional: Option<Additional>): (r: seq<string>)
    ensures |r| == 5 + FlagCount(additional)
    ensures r[..4] == ["--fullsize", "--dir=" + outputTmp, "--filename=" + index, "--clipwidth=1"]
    ensures r[|r| - 1] == url
    ensures additional.Some? && ScalarTruthy(additional.value.width) ==>
      r[4] == "--width=" + ScalarText(additional.value.width.value)
    ensures additional.Some? && ScalarTruthy(additional.value.height) ==>
      r[if ScalarTruthy(additional.value.width) then 5 else 4] == "--height=" + ScalarText(additional.value.height.value)
    ensures additional.Some? && Truthy(additional.value.agent) ==>
      r[|r| - 2] == "--user-agent=\"" + additional.value.agent.value + "\""
  {
    var a := if additional.Some? then additional.value else Additional(None, None, None);
    var options := ["--fullsize", "--dir=" + outputTmp, "--filename=" + index, "--clipwidth=1"];
    var options := if ScalarTruthy(a.width) then options + ["--width=" + ScalarText(a.width.value)] else options;
    var options := if ScalarTruthy(a.height) then options + ["--height=" + ScalarText(a.height.value)] else options;
    var options := if Truthy(a.agent) then options + ["--user-agent=\"" + a.agent.value + "\""] else options;
    options + [url]
  }

  /** A missing `additional` gives the same list as an empty one. */
  lemma MissingAdditionalIsEmpty(url: string, outputTmp: string, index: string)
    ensures ChildArgs(url, outputTmp, index, None) == ChildArgs(url, outputTmp, index, Some(Additional(None, None, None)))
  {
  }

  /** `processUrl` for one validated entry, as written: the `!url` test looks at
      the record, which is never falsy, so the capture tool is started for every
      entry, with an empty url too. Only an entry whose url is no string at all (a
      `null` list element wrapped by validation) yields no string argument list;
      what `spawn` makes of that is not modelled. */
  function CaptureArgsAsWritten(e: Item, temp: string, additional: Option<Additional>): (r: Option<seq<string>>)
    requires IsEntry(e)
    ensures r.Some? <==> e.url.Some?
    ensures r.Some? ==> r.value == ChildArgs(e.url.value, temp + "/" + GroupOf(e) + "/", Decimal(e.index.value), additional)
  {
    if SkippedAsWritten(e) || e.url.None? then None
    else Some(ChildArgs(e.url.value, temp + "/" + e.group.value + "/", Decimal(e.index.value), additional))
  }

  /** `processUrl` for one validated entry with the intended skip test (the url is
      falsy): the capture-tool arguments, or `None` when the entry is skipped. */
  function CaptureArgs(e: Item, temp: string, additional: Option<Additional>): (r: Option<seq<string>>)
    requires IsEntry(e)
    ensures r.None? <==> !Truthy(e.url)
    ensures r.Some? ==> r.value == ChildArgs(e.url.value, temp + "/" + GroupOf(e) + "/", Decimal(e.index.value), additional)
    ensures r.Some? ==> |r.value| == 5 + FlagCount(additional)
    ensures r.Some? ==> r.value[1] == "--dir=" + temp + "/" + GroupOf(e) + "/"
    ensures r.Some? ==> r.value[2] == "--filename=" + Decimal(e.index.value)
    ensures r.Some? ==> Truthy(Some(r.value[|r.value| - 1])) && Some(r.value[|r.value| - 1]) == e.url
  {
    if Skipped(e) then None
    else Some(ChildArgs(e.url.value, temp + "/" + e.group.value + "/", Decimal(e.index.value), additional))
  }

  /** The two tests disagree only on an empty url: there the script still starts
      a capture of `''`, which the intended test skips. */
  lemma CaptureAsWrittenVersusIntended(e: Item, temp: string, additional: Option<Additional>)
    requires IsEntry(e)
    ensures Truthy(e.url) ==> CaptureArgsAsWritten(e, temp, additional) == CaptureArgs(e, temp, additional)
    ensures e.url == Some("") ==>
      (CaptureArgs(e, temp, additional).None?
       && CaptureArgsAsWritten(e, temp, additional).Some?
       && CaptureArgsAsWritten(e, temp, additional).value[|CaptureArgsAsWritten(e, temp, additional).value| - 1] == "")
  {
  }

  /** The record `{url: '', group: 'News'}` at position 0: the script runs the
      capture tool with an empty url, although validation marked it to be skipped. */
  lemma EmptyUrlLaunchedAsWritten(temp: string)
    ensures var e := Normalize(Rec(Some(""), Some("News"), None), 0);
      CaptureArgsAsWritten(e, temp, None) == Some(ChildArgs("", temp + "/News/", "0", None))
      && CaptureArgs(e, temp, None).None?
  {
    var e := Normalize(Rec(Some(""), Some("News"), None), 0);
    assert Decimal(0) == "0";
    assert GroupOf(e) == "News";
    assert temp + "/" + "News" + "/" == temp + "/News/";
  }

  /** Two different entries of a validated list are never told to write the
      same file: the group directory and the index-named file differ. */
  lemma CaptureTargetsDistinct(s: seq<Item>, temp: string, additional: Option<Additional>, i: nat, j: nat)
    requires i < |s| && j < |s| && i != j
    requires CaptureArgs(Normalized(s)[i], temp, additional).Some?
    requires CaptureArgs(Normalized(s)[j], temp, additional).Some?
    ensures CaptureArgs(Normalized(s)[i], temp, additional).value[2]
         != CaptureArgs(Normalized(s)[j], temp, additional).value[2]
  {
    var es := Normalized(s);
    var a := CaptureArgs(es[i], temp, additional).value;
    var b := CaptureArgs(es[j], temp, additional).value;
    if a[2] == b[2] {
      var p := "--filename=";
      assert a[2][|p|..] == Decimal(i);
      assert b[2][|p|..] == Decimal(j);
      DecimalInjective(i, j);
    }
  }

  /** `screenshotsComplete`: the capture of the rendered report (no overrides,
      the date stamp as file name) and the path announced by `complete`, which
      names the file that capture is told to write. */
  function Completion(temp: string, output: string, year: nat, month: nat, day: nat): (r: (seq<string>, string))
    ensures |r.0| == 5 && r.0[|r.0| - 1] == temp + "/template.html"
    ensures r.0[1] == "--dir=" + output
    ensures r.0[2] == "--filename=" + DateStamp.Stamp(year, month, day)
    ensures r.1 == output + "/" + DateStamp.Stamp(year, month, day) + "-full.png"
  {
    var outputFile := DateStamp.Stamp(year, month, day);
    (ChildArgs(temp + "/template.html", output, outputFile, None), output + "/" + outputFile + "-full.png")
  }

  /** A style slot is set when it holds a truthy value. */
  predicate IsSet(styles: map<string, Option<string>>, style: string) {
    style in styles && Truthy(styles[style])
  }

  /** `setDefaultStyle(style, value)` on the map: a set slot is kept, otherwise it
      takes `value`, or `null` when `value` is falsy. */
  function WithDefault(styles: map<string, Option<string>>, style: string, value: Option<string>): map<string, Option<string>>
  {
    var v := if Truthy(value) then value else None;
    styles[style := if IsSet(styles, style) then styles[style] else v]
  }

  /** The slot ends up present; no other slot changes; a set slot keeps its
      value; an unset one takes `value` when it is truthy and `null` otherwise. */
  lemma WithDefaultSpec(styles: map<string, Option<string>>, style: string, value: Option<string>)
    ensures WithDefault(styles, style, value).Keys == styles.Keys + {style}
    ensures forall k :: k in styles && k != style ==> WithDefault(styles, style, value)[k] == styles[k]
    ensures IsSet(styles, style) ==> WithDefault(styles, style, value)[style] == styles[style]
    ensures !IsSet(styles, style) ==> WithDefault(styles, style, value)[style] == (if Truthy(value) then value else None)
  {
  }

  /** Repeating a call changes nothing more. */
  lemma WithDefaultIdempotent(styles: map<string, Option<string>>, style: string, value: Option<string>)
    ensures WithDefault(WithDefault(styles, style, value), style, value) == WithDefault(styles, style, value)
  {
  }

  /** The first truthy value given for a slot wins over every later one. */
  lemma FirstTruthyWins(styles: map<string, Option<string>>, style: string, first: Option<string>, later: Option<string>)
    requires Truthy(first)
    ensures WithDefault(WithDefault(styles, style, first), style, later) == WithDefault(styles, style, first)
    ensures IsSet(WithDefault(styles, style, first), style)
  {
  }

  /** The defaults the constructor installs, in the order it installs them. */
  const DefaultStyles: seq<(string, string)> := [
    ("background", "#fff"),
    ("bodyFontFamily", "\"Lato\", sans-serif"),
    ("bodyFontWeight", "400"),
    ("bodyFontColor", "#7f8c8d"),
    ("bodyFontSize", "12px"),
    ("bodyLineHeight", "17px"),
    ("groupMargin", "40px 0"),
    ("screenshotImgBorder", "4px solid #d35400"),
    ("h2FontSize", "24px"),
    ("h2FontColor", "#2C3E50"),
    ("h2FontWeight", "700"),
    ("h2Margin", "2px 0"),
    ("urlFontStyle", "italic")
  ]

  /** The styles after `setDefaultStyle` has been applied, in order, for the
      first `k` pairs of `t`. */
  function ApplyDefaults(styles: map<string, Option<string>>, t: seq<(string, string)>, k: nat): map<string, Option<string>>
    requires k <= |t|
  {
    if k == 0 then styles
    else WithDefault(ApplyDefaults(styles, t, k - 1), t[k - 1].0, Some(t[k - 1].1))
  }

  predicate DistinctKeys(t: seq<(string, string)>) {
    forall j, k :: 0 <= j < k < |t| ==> t[j].0 != t[k].0
  }

  /** For distinct style names with truthy defaults: every named slot ends up set,
      keeping a value that was already set; every other slot is untouched. */
  lemma {:induction false} ApplyDefaultsSpec(styles: map<string, Option<string>>, t: seq<(string, string)>, k: nat)
    requires k <= |t|
    requires DistinctKeys(t)
    requires forall j :: 0 <= j < |t| ==> t[j].1 != ""
    ensures forall j :: 0 <= j < k ==>
      t[j].0 in ApplyDefaults(styles, t, k) &&
      ApplyDefaults(styles, t, k)[t[j].0] == (if IsSet(styles, t[j].0) then styles[t[j].0] else Some(t[j].1))
    ensures forall name :: (forall j :: 0 <= j < k ==> t[j].0 != name) ==>
      (name in ApplyDefaults(styles, t, k) <==> name in styles) &&
      (name in styles ==> ApplyDefaults(styles, t, k)[name] == styles[name])
  {
    if k > 0 {
      ApplyDefaultsSpec(styles, t, k - 1);
      WithDefaultSpec(ApplyDefaults(styles, t, k - 1), t[k - 1].0, Some(t[k - 1].1));
    }
  }

  lemma DefaultStylesDistinct()
    ensures DistinctKeys(DefaultStyles)
    ensures forall j :: 0 <= j < |DefaultStyles| ==> DefaultStyles[j].1 != ""
  {
  }

  /** What the constructor leaves in `options.styles`: every default slot is set,
      to the caller's value where that was already truthy and to the default
      otherwise; every other slot the caller gave is kept as it was. */
  lemma DefaultsInstalled(given: map<string, Option<string>>)
    ensures forall j :: 0 <= j < |DefaultStyles| ==>
      var name := DefaultStyles[j].0;
      IsSet(ApplyDefaults(given, DefaultStyles, |DefaultStyles|), name) &&
      ApplyDefaults(given, DefaultStyles, |DefaultStyles|)[name]
        == (if IsSet(given, name) then given[name] else Some(DefaultStyles[j].1))
    ensures forall name :: (forall j :: 0 <= j < |DefaultStyles| ==> DefaultStyles[j].0 != name) ==>
      (name in ApplyDefaults(given, DefaultStyles, |DefaultStyles|) <==> name in given) &&
      (name in given ==> ApplyDefaults(given, DefaultStyles, |DefaultStyles|)[name] == given[name])
  {
    DefaultStylesDistinct();
    ApplyDefaultsSpec(given, DefaultStyles, |DefaultStyles|);
  }

  /** The part of the Screenshot object this file adds: its style options, and
      the grouping state it shares with lib/screenshot-html.js. */
  class Screenshot {
    var styles: map<string, Option<string>>
    const grouping: UrlGroups

    /** The constructor's set-up before any work starts: `options.styles` (or
        `{}`), the thirteen default styles, `groups = ['Default']`, `grouped = {}`. */
    constructor (givenStyles: Option<map<string, Option<string>>>)
      ensures styles == ApplyDefaults(if givenStyles.Some? then givenStyles.value else map[], DefaultStyles, |DefaultStyles|)
      ensures fresh(grouping)
      ensures grouping.groups == [DefaultGroup] && grouping.grouped == map[]
    {
      styles := if givenStyles.Some? then givenStyles.value else map[];
      grouping := new UrlGroups();
      new;
      ghost var init := styles;
      var t := DefaultStyles;
      assert |t| == 13;
      SetDefaultStyle(t[0].0, Some(t[0].1));
      assert styles == ApplyDefaults(init, t, 1);
      SetDefaultStyle(t[1].0, Some(t[1].1));
      assert styles == ApplyDefaults(init, t, 2);
      SetDefaultStyle(t[2].0, Some(t[2].1));
      assert styles == ApplyDefaults(init, t, 3);
      SetDefaultStyle(t[3].0, Some(t[3].1));
      assert styles == ApplyDefaults(init, t, 4);
      SetDefaultStyle(t[4].0, Some(t[4].1));
      assert styles == ApplyDefaults(init, t, 5);
      SetDefaultStyle(t[5].0, Some(t[5].1));
      assert styles == ApplyDefaults(init, t, 6);
      SetDefaultStyle(t[6].0, Some(t[6].1));
      assert styles == ApplyDefaults(init, t, 7);
      SetDefaultStyle(t[7].0, Some(t[7].1));
      assert styles == ApplyDefaults(init, t, 8);
      SetDefaultStyle(t[8].0, Some(t[8].1));
      assert styles == ApplyDefaults(init, t, 9);
      SetDefaultStyle(t[9].0, Some(t[9].1));
      assert styles == ApplyDefaults(init, t, 10);
      SetDefaultStyle(t[10].0, Some(t[10].1));
      assert styles == ApplyDefaults(init, t, 11);
      SetDefaultStyle(t[11].0, Some(t[11].1));
      assert styles == ApplyDefaults(init, t, 12);
      SetDefaultStyle(t[12].0, Some(t[12].1));
      assert styles == ApplyDefaults(init, t, 13);
    }

    method SetDefaultStyle(style: string, value: Option<string>)
      modifies this
      ensures styles == WithDefault(old(styles), style, value)
    {
      var v := if Truthy(value) then value else None;
      styles := styles[style := if IsSet(styles, style) then styles[style] else v];
    }
  }
}
