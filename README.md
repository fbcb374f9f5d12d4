# multishot: capture arguments, URL grouping and style defaults

This Dafny project models the three capture scripts of multishot:

- `lib/screenshot.js` turns a list of URLs into screenshots grouped by name. Each screenshot is a `webkit2png` run.
- `lib/screenshot-html.js` is the same pipeline without size or agent overrides, without `--clipwidth=1` and without style options.
- `lib/screenshot-service.js` is a simpler script. It captures each non-empty URL in turn into one directory, then joins the files side by side with ImageMagick `convert`.

The modules are:

- `JsValues`: JavaScript values as the scripts see them.
  - Optional strings: a missing field, `null` and `undefined` are all `None`.
  - Truthiness.
  - The decimal text that `'' + n` gives for a non-negative integer. `Decimal` is proved to round-trip and to be injective.
- `DateStamp`: the output stamp `"" + year + (month + 1) + day`.
- `Grouping`: `validateGroups`, which the two group-aware scripts share line for line (`lib/screenshot.js:127-162` and `lib/screenshot-html.js:87-122`).
  - The class `UrlGroups` holds `urls` (an array shared with the caller's list when one is given), `groups` and `grouped`.
  - `ValidateGroups` rewrites the array in place and fills the registry.
  - It is proved against the functions `Normalized`, `GroupsAfter` and `GroupedAfter`.
- `GroupingFacts`: what those functions guarantee.
  - Each entry's index is its position.
  - Falsy fields fall back to `''` and `'Default'`.
  - `groups` holds no duplicates and lists new names in first-seen order.
  - `grouped[g]` holds exactly the group's entries, in ascending index order.
  - The lists partition the entries.
  - The registry built from the example driver's list is worked out in full.
- `Screenshot`:
  - the argument list of `childArgs`;
  - one `processUrl` capture;
  - the final capture of the rendered report and the path that `complete` announces;
  - `setDefaultStyle` and the class `Screenshot`, whose constructor installs the thirteen default styles.
- `ScreenshotHtml`: the four-element argument list, its capture of one entry, and its final capture.
- `ScreenshotService`: the argument list, the sequential `eachSeries` run over the URLs, and the `convert` argument list.

### What the scripts do, and one place where they disagree with themselves

- **Empty URLs are not skipped.** When `validateGroups` finds a falsy url it sets it to `''` with the comment "Falls back to nothing. Will be skipped." (`lib/screenshot.js:134`). `processUrl` opens with "Check if item is empty" (`lib/screenshot.js:165`), but it then tests the list element `!url`, and after validation that element is always a record. So nothing is skipped, and the capture tool is started with an empty url. The model gives both readings:
  - `Screenshot.CaptureArgsAsWritten` and `ScreenshotHtml.CaptureArgsAsWritten` are the code as written;
  - `Screenshot.CaptureArgs` and `ScreenshotHtml.CaptureArgs` use the skip test the comments describe.

  See "## Findings".
- **No compositing.** The scripts do no compositing of their own. `lib/screenshot.js` and `lib/screenshot-html.js` capture a rendered HTML report of the groups. `lib/screenshot-service.js` joins its captures side by side with ImageMagick `convert`.

## Model

| member | source | states |
|---|---|---|
| JsValues.Decimal | lib/screenshot.js:193 | the text a non-negative integer gives in string concatenation: at least one digit, all digits, a leading `0` only for zero, one digit exactly below ten |
| JsValues.DecimalRoundTrip | lib/screenshot.js:33 | reading the digits back gives the number, so the index-named file name encodes the index |
| JsValues.DecimalInjective | lib/screenshot.js:33 | different indices give different file names |
| JsValues.DecimalTwoDigits | lib/screenshot.js:193 | numbers 10 to 99 are written with two digits |
| DateStamp.Stamp | lib/screenshot.js:192-193 | the stamp is all digits; its length is the sum of the unpadded lengths of year, month number and day |
| DateStamp.StampCollision | lib/screenshot-service.js:74 | the stamp is not padded, so 11 January and 1 November 2014 both give `2014111`, the same output file |
| DateStamp.StampInjectiveOnTwoDigitParts | lib/screenshot-html.js:151-152 | when month number and day both have two digits, equal stamps mean equal dates |
| Grouping.Normalize | lib/screenshot.js:131-148 | the entry made of one element is a record with a truthy group and index `i`; it keeps the element's group and its url when that is truthy, and its url is truthy exactly when the element's was |
| Grouping.UrlGroups.constructor | lib/screenshot.js:84-85 | `groups` starts as `['Default']` and `grouped` empty |
| Grouping.UrlGroups.Begin | lib/screenshot.js:115-118 | a single string becomes a fresh one-element list; a list is used as it is (same array); then the list holds the validated entries and the registry is extended by them |
| Grouping.UrlGroups.Register | lib/screenshot.js:152-160 | the group name is appended only when it is new; the entry is appended to its group's list, which is created empty first; the list itself is not touched |
| Grouping.UrlGroups.Validate | lib/screenshot.js:131-148 | the rewrite of one element at position `i` is the validated entry `Normalize` describes |
| Grouping.UrlGroups.ValidateGroups | lib/screenshot.js:127-162 | the same array now holds the validated entries, element by element; `groups` and `grouped` are the initial registry extended by those entries in list order (the same loop is `lib/screenshot-html.js:87-122`) |
| GroupingFacts.ValidatedShape | lib/screenshot.js:130-150 | validation keeps the length, gives element `i` index `i`, and leaves no falsy element |
| GroupingFacts.NormalizeFallbacks | lib/screenshot.js:132-146 | a record's falsy url becomes `''` and its falsy group `'Default'`, truthy fields are kept; any other element `v` becomes `{group: 'Default', url: v}` |
| GroupingFacts.FirstIndexSpec | lib/screenshot.js:152-154 | the first position of a group is the first element of that group, and it exists exactly when some element has the group |
| GroupingFacts.GroupsAfterFacts | lib/screenshot.js:152-154 | `groups` keeps its old names as a prefix and stays duplicate-free; a name is in it exactly when it was before or some entry has it; each added name was new and belongs to an entry |
| GroupingFacts.GroupsFirstSeenOrder | lib/screenshot.js:152-154 | added names are listed in the order of their first occurrence in the list |
| GroupingFacts.GroupedAfterFacts | lib/screenshot.js:156-160 | `grouped` has a key exactly for the old keys and the groups of the entries; each list is the old one followed by exactly that group's entries in list order |
| GroupingFacts.MembersFacts | lib/screenshot.js:156-160 | a group's list holds exactly the entries of that group, and is non-empty exactly when one exists |
| GroupingFacts.MembersAscending | lib/screenshot.js:156-160 | on validated entries a group's list is in ascending index order |
| GroupingFacts.GroupsPartitionEntries | lib/screenshot.js:84-85 | from the initial registry: names distinct, every key of `grouped` is a listed group with a non-empty list, and the list lengths add up to the number of entries |
| GroupingFacts.AsWrittenSkipsNothing | lib/screenshot.js:166-170 | as written (`Grouping.SkippedAsWritten`, the element test `!url`), the emptiness test of `processUrl` holds for no validated entry |
| GroupingFacts.EmptyUrlCapturedAsWritten | lib/screenshot.js:133-135 | a record with url `''` becomes an entry with url `''` that the as-written test does not skip |
| GroupingFacts.SkippedIffInputUrlFalsy | lib/screenshot.js:133-135 | with the intended test `Grouping.Skipped` (the url is falsy), a validated entry is skipped exactly when the url its input element carried was falsy |
| GroupingFacts.DriverGroupsOf | example/test.js:6-28 | the driver's six elements validate to groups Circles ×3, Default ×2, News+Inspiration, indexed 0 to 5 |
| GroupingFacts.DriverGroupNames | example/test.js:6-28 | the resulting `groups` is `['Default', 'Circles', 'News+Inspiration']` |
| GroupingFacts.DriverGroupedPrefix | example/test.js:7-18 | after the first three elements `grouped` holds only Circles with those three entries |
| GroupingFacts.DriverGrouped | example/test.js:6-28 | `grouped` maps Circles, Default and News+Inspiration to the entries with indices 0-2, 3-4 and 5 |
| GroupingFacts.DriverExample | example/test.js:30 | the constructor call of the driver gives exactly that registry |
| Screenshot.ChildArgs | lib/screenshot.js:27-52 | the list is the four fixed flags, then `--width`, `--height`, `--user-agent="…"` for each truthy override in that order, then the url last; its length counts the truthy overrides |
| Screenshot.MissingAdditionalIsEmpty | lib/screenshot.js:28 | a missing `additional` behaves like `{}` |
| Screenshot.CaptureArgsAsWritten | lib/screenshot.js:164-177 | as written, every validated entry whose url is a string is captured, an empty url included; the arguments are `childArgs(url, temp/<group>/, index, additional)` |
| Screenshot.CaptureArgs | lib/screenshot.js:164-177 | with the intended skip test (`Grouping.Skipped`): an entry is captured exactly when its url is truthy; the arguments are `childArgs(url, temp/<group>/, index, additional)`, so the overrides are passed through and the url is last |
| Screenshot.CaptureAsWrittenVersusIntended | lib/screenshot.js:164-177 | the two readings agree on every truthy url; on an empty url the script captures `''` and the intended test skips |
| Screenshot.EmptyUrlLaunchedAsWritten | lib/screenshot.js:133-135 | `{url: '', group: 'News'}` at position 0 is captured as written with the arguments for `''` into `temp/News/` as file `0`, and skipped by the intended test |
| Screenshot.CaptureTargetsDistinct | lib/screenshot.js:172 | two different entries of one validated list are never given the same file name |
| Screenshot.Completion | lib/screenshot.js:179-201 | the report capture writes `temp/template.html` into the output directory under the date stamp, without overrides, and `complete` announces `<output>/<stamp>-full.png` |
| Screenshot.WithDefaultSpec | lib/screenshot.js:203-206 | characterises `Screenshot.WithDefault`, the map-level `setDefaultStyle`: after it the slot exists; a set slot keeps its value, an unset one takes the value or `null` if that is falsy; no other slot changes |
| Screenshot.WithDefaultIdempotent | lib/screenshot.js:203-206 | a repeated call changes nothing more |
| Screenshot.FirstTruthyWins | lib/screenshot.js:203-206 | once a truthy value is in a slot, later defaults do not replace it |
| Screenshot.ApplyDefaultsSpec | lib/screenshot.js:69-82 | applying distinct truthy defaults in order sets every named slot (keeping an already set value) and leaves every other slot as it was |
| Screenshot.DefaultStylesDistinct | lib/screenshot.js:70-82 | the thirteen default style names are distinct and their values non-empty |
| Screenshot.DefaultsInstalled | lib/screenshot.js:67-82 | after the constructor every default style is set: to the caller's value when that was truthy, otherwise to the default; the caller's other styles are kept |
| Screenshot.Screenshot.constructor | lib/screenshot.js:61-85 | `styles` is the caller's map (or empty) with the thirteen defaults applied in source order; a fresh grouping registry `['Default']` / `{}` |
| Screenshot.Screenshot.SetDefaultStyle | lib/screenshot.js:203-206 | the styles become the old styles with the default rule applied to one slot |
| ScreenshotHtml.ChildArgs | lib/screenshot-html.js:25-32 | four elements with the url last, agreeing with the other script's list on the first three |
| ScreenshotHtml.SameAsScriptArgsWithoutClip | lib/screenshot-html.js:25-32 | this list is the list of `lib/screenshot.js` without overrides with `--clipwidth=1` removed |
| ScreenshotHtml.CaptureArgsAsWritten | lib/screenshot-html.js:124-137 | as written, every validated entry whose url is a string is captured, an empty url included, with the four-element list for `temp/<group>/` and its index |
| ScreenshotHtml.CaptureArgs | lib/screenshot-html.js:124-137 | with the intended skip test: an entry is captured exactly when its url is truthy, with the four-element list for `temp/<group>/`, its index and the url last |
| ScreenshotHtml.CaptureAsWrittenVersusIntended | lib/screenshot-html.js:124-137 | the two readings agree on every truthy url; on an empty url the script captures `''` and the intended test skips |
| ScreenshotHtml.EmptyUrlLaunchedAsWritten | lib/screenshot-html.js:93-95 | `{url: '', group: 'News'}` at position 0 is captured as written with `["--fullsize", "--dir=<temp>/News/", "--filename=0", ""]`, and skipped by the intended test |
| ScreenshotHtml.FinalCaptureArgs | lib/screenshot-html.js:139-159 | the report `temp/template.html` is captured into the output directory under the date stamp |
| ScreenshotService.ChildArgs | lib/screenshot-service.js:26-33 | the three fixed flags, the tmp directory, then the url |
| ScreenshotService.ProcessUrl | lib/screenshot-service.js:44-55 | a capture is launched exactly when the url is truthy, and it captures that url |
| ScreenshotService.Captures | lib/screenshot-service.js:35-40 | the run launches one capture per truthy url, each with a non-empty url |
| ScreenshotService.CaptureOfEachUrl | lib/screenshot-service.js:39 | the capture of the `i`-th url comes right after the captures of the truthy urls before it: input order is kept |
| ScreenshotService.SingleUrlRun | lib/screenshot-service.js:36 | through `ScreenshotService.UrlList`, which makes a one-element list of a string and keeps a list: a single string gives one capture, or none when it is empty |
| ScreenshotService.OutputPath | lib/screenshot-service.js:74 | the combined image is `output_images/combined/` + the date stamp + `.png`: a file of that directory whose name is digits followed by `.png` |
| ScreenshotService.ConvertArgs | lib/screenshot-service.js:64-74 | `+append`, then every found file in order, then `output_images/combined/<stamp>.png` |

## Left out

- Running `webkit2png` and waiting for its exit, and the `which('webkit2png')` check that throws when the tool is missing (lib/screenshot.js:57-59): these are external processes. A capture is modelled by the argument list it is given.
- Running ImageMagick `convert`, and the glob that lists the captured files (lib/screenshot-service.js:58-62, 76-79). The file list is an input of `ConvertArgs`, so the glob's order and its error path are not modelled.
- Workspace set-up with `mkdirp`, glob and `unlink`; reading the template; rendering it with handlebars; writing `template.html`. These are filesystem and template I/O.
- The `async` orchestration: `async.parallel`, the unordered `async.each` with its `progress` events and the final callback, and the `EventEmitter` events `progress`, `error` and `complete`. The model states what each step is given, not when it runs. Only the service script's `eachSeries` order is modelled, in `ScreenshotService.Captures`.
- `console.log` and `console.error` output.
- `process.cwd()`, `new Date()` and `__dirname`: the date parts are parameters, and the default `options` objects and the `template` option are not modelled.
- `path.normalize`, `path.resolve` and `path.join`: paths are plain concatenations, so duplicate slashes are not collapsed.
- Grouping.UrlGroups: group names that are properties of `Object.prototype` (for example `constructor`) are not modelled. `grouped` is a plain map, while in the script such a name finds an inherited member.
- Grouping.Item: the caller's record objects are values. In the script, validation mutates them in place, and any other reference to them sees the change. Object identity is not modelled, and this has a cost:
  - When one record object occurs twice in the list (`var r = {url: 'a'}; [r, r]`), the script writes `r.index = 0` and then `r.index = 1`. Both slots, and both entries of `grouped.Default`, end with index 1.
  - So GroupingFacts.ValidatedShape ("element `i` has index `i`") and GroupingFacts.MembersAscending (strictly ascending indices) hold for the script only when no record object occurs twice in the list.
- Grouping.UrlGroups.constructor: `urls` starts as an empty array. In the script it is unset until the set-up callback runs.
- Screenshot.CaptureArgsAsWritten: a `null` or `undefined` list element becomes an entry whose url is `null`. The script passes that `null` to `spawn`, and what `spawn` does with a non-string argument is not modelled: the function returns no argument list for it. The same holds for ScreenshotHtml.CaptureArgsAsWritten.
- Constructor arguments that are neither a string nor an array are not modelled. Neither are url fields holding non-string values, beyond the falsy/truthy distinction.
- Screenshot.Screenshot.constructor: the styles are taken by value. The script keeps the caller's `options` object (lib/screenshot.js:61) and writes the defaults into the caller's own `options.styles` (lib/screenshot.js:67, 205), so the caller sees its object changed; that aliasing is not modelled.
- Screenshot.ChildArgs: numeric overrides are non-negative integers, so negative or fractional widths and their text are not modelled.
- `lib/presets.js`, `Gruntfile.js` and the CLI are not part of this model. `example/test.js` appears only as the worked example.

## Findings

| source | as written | input that shows it | evidently intended | confidence | as-written member | corrected member |
|---|---|---|---|---|---|---|
| lib/screenshot.js:166 | `processUrl` skips when the list element is falsy, but after `validateGroups` every element is a record, so no entry is ever skipped | `[{url: '', group: 'News'}]`: validation sets url to `''` ("Will be skipped"), and `webkit2png` is still run with an empty url | skip an entry whose url is falsy, and capture every other one | high, not executed | Screenshot.EmptyUrlLaunchedAsWritten | Screenshot.CaptureArgs |
| lib/screenshot-html.js:126 | the same element test, after the same validation (lib/screenshot-html.js:93-95), never skips | `[{url: '', group: 'News'}]`: the capture tool is run with `''` as its url | skip an entry whose url is falsy | high, not executed | ScreenshotHtml.EmptyUrlLaunchedAsWritten | ScreenshotHtml.CaptureArgs |
