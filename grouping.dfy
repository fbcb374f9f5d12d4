/** URL grouping: `validateGroups` of lib/screenshot.js, repeated line for line in
    lib/screenshot-html.js. It rewrites every element of the URL list, in place,
    into a record `{url, group, index}`, registers each new group name in
    `groups` (first-seen order) and appends each entry to `grouped[group]`. */
module Grouping {
  import opened JsValues

  /** One element of the caller's URL list: a plain record whose fields may be
      missing or falsy, or anything else (a bare URL string, `null`, ...). */
  datatype Item =
    | Rec(url: Option<string>, group: Option<string>, index: Option<nat>)
    | Bare(value: Option<string>)

  const DefaultGroup: string := "Default"

  /** JS truthiness of a list element: a record object is always truthy. */
  predicate ItemTruthy(x: Item) {
    x.Rec? || Truthy(x.value)
  }

  /** The URL an element carries, whichever form it has. */
  function UrlOf(x: Item): Option<string> {
    if x.Rec? then x.url else x.value
  }

  /** The group an element belongs to once falsy names fall back to "Default". */
  function GroupOf(x: Item): string {
    if x.Rec? && Truthy(x.group) then x.group.value else DefaultGroup
  }

  /** A validated entry: a record with a truthy group and an index. */
  predicate IsEntry(x: Item) {
    x.Rec? && Truthy(x.group) && x.index.Some?
  }

  /** The entry that validation makes of element `x` at position `i`. */
  function Normalize(x: Item, i: nat): (e: Item)
    ensures IsEntry(e) && e.index == Some(i)
    ensures GroupOf(e) == GroupOf(x)
    ensures Truthy(UrlOf(x)) ==> e.url == UrlOf(x)
    ensures Truthy(e.url) <==> Truthy(UrlOf(x))
  {
    match x
    case Rec(u, g, _) =>
      Rec(if Truthy(u) then u else Some(""), if Truthy(g) then g else Some(DefaultGroup), Some(i))
    case Bare(v) => Rec(v, Some(DefaultGroup), Some(i))
  }

  /** The whole list after validation. */
  function Normalized(s: seq<Item>): (r: seq<Item>)
  {
    seq(|s|, i requires 0 <= i < |s| => Normalize(s[i], i))
  }

  /** Every element is an entry whose index is its position. */
  predicate Indexed(es: seq<Item>) {
    forall i :: 0 <= i < |es| ==> IsEntry(es[i]) && es[i].index == Some(i)
  }

  /** `groups` after the loop has visited `es`, starting from `gs`. */
  function GroupsAfter(gs: seq<string>, es: seq<Item>): seq<string>
  {
    if es == [] then gs
    else
      var p := GroupsAfter(gs, es[..|es| - 1]);
      var g := GroupOf(es[|es| - 1]);
      if g in p then p else p + [g]
  }

  /** `grouped` after the loop has visited `es`, starting from `m`. */
  function GroupedAfter(m: map<string, seq<Item>>, es: seq<Item>): map<string, seq<Item>>
  {
    if es == [] then m
    else
      var p := GroupedAfter(m, es[..|es| - 1]);
      var e := es[|es| - 1];
      var g := GroupOf(e);
      p[g := (if g in p then p[g] else []) + [e]]
  }

  lemma GroupsAfterSnoc(gs: seq<string>, es: seq<Item>, e: Item)
    ensures GroupsAfter(gs, es + [e]) ==
      var p := GroupsAfter(gs, es); if GroupOf(e) in p then p else p + [GroupOf(e)]
  {
    assert (es + [e])[..|es|] == es;
  }

  lemma GroupedAfterSnoc(m: map<string, seq<Item>>, es: seq<Item>, e: Item)
    ensures GroupedAfter(m, es + [e]) ==
      var p := GroupedAfter(m, es); var g := GroupOf(e); p[g := (if g in p then p[g] else []) + [e]]
  {
    assert (es + [e])[..|es|] == es;
  }

  /** Growing the validated prefix by one element. */
  lemma NormalizedPrefixSnoc(s: seq<Item>, i: nat)
    requires i < |s|
    ensures Normalized(s)[..i + 1] == Normalized(s)[..i] + [Normalize(s[i], i)]
  {
  }

  /** The emptiness test that opens `processUrl`, as written: `!url` is asked of
      the list element, which validation has made a record, never of its url. */
  predicate SkippedAsWritten(x: Item) {
    !ItemTruthy(x)
  }

  /** The test the surrounding comments describe ("Falls back to nothing. Will be
      skipped."): an entry whose url is falsy is not captured. */
  predicate Skipped(x: Item) {
    !Truthy(UrlOf(x))
  }

  /** The argument the constructor receives: one URL string or a list. */
  datatype UrlArg = One(s: string) | Many(list: array<Item>)
  {
    function Frame(): set<object> {
      if Many? then {list} else {}
    }
  }

  /** The grouping state of a capture run: `this.urls`, `this.groups` and
      `this.grouped` of the Screenshot object. */
  class UrlGroups {
    var urls: array<Item>
    var groups: seq<string>
    var grouped: map<string, seq<Item>>

    /** `this.groups = ['Default']; this.grouped = {};` */
    constructor ()
      ensures groups == [DefaultGroup] && grouped == map[]
      ensures urls.Length == 0
    {
      urls := new Item[0];
      groups := [DefaultGroup];
      grouped := map[];
    }

    /** The completion callback of the workspace set-up: a single string becomes a
        one-element list, a list is used as it is (and so shared with the caller),
        then the list is validated. */
    method Begin(url: UrlArg)
      modifies this, url.Frame()
      ensures url.Many? ==> urls == url.list
      ensures url.One? ==> fresh(urls)
      ensures urls[..] == Normalized(if url.One? then [Bare(Some(url.s))] else old(url.list[..]))
      ensures groups == GroupsAfter(old(groups), urls[..])
      ensures grouped == GroupedAfter(old(grouped), urls[..])
    {
      if url.One? {
        urls := new Item[1](_ => Bare(Some(url.s)));
      } else {
        urls := url.list;
      }
      ValidateGroups();
    }

    /** Records a validated entry: its group name joins `groups` the first time
        it is seen, and the entry is appended to that group's list. */
    method Register(url: Item)
      requires IsEntry(url)
      modifies this
      ensures urls == old(urls)
      ensures groups == if GroupOf(url) in old(groups) then old(groups) else old(groups) + [GroupOf(url)]
      ensures grouped == old(grouped)[GroupOf(url) := (if GroupOf(url) in old(grouped) then old(grouped)[GroupOf(url)] else []) + [url]]
    {
      var g := url.group.value;
      if g !in groups {
        groups := groups + [g];
      }
      if g !in grouped {
        grouped := grouped[g := []];
      }
      grouped := grouped[g := grouped[g] + [url]];
    }

    /** The rewrite of one element at position `i`: a record gets its fall-backs,
        anything else is wrapped as `{group: 'Default', url: element}`; both are
        given the index `i`. */
    static method Validate(x: Item, i: nat) returns (url: Item)
      ensures url == Normalize(x, i)
    {
      url := x;
      if url.Rec? {
        if !Truthy(url.url) {
          // Falls back to nothing.
          url := url.(url := Some(""));
        }
        if !Truthy(url.group) {
          url := url.(group := Some(DefaultGroup));
        }
      } else {
        url := Rec(url.value, Some(DefaultGroup), None);
      }
      url := url.(index := Some(i));
    }

    method ValidateGroups()
      modifies this, urls
      ensures urls == old(urls)
      ensures urls[..] == Normalized(old(urls[..]))
      ensures groups == GroupsAfter(old(groups), urls[..])
      ensures grouped == GroupedAfter(old(grouped), urls[..])
    {
      ghost var input := urls[..];
      ghost var seen: seq<Item> := [];
      var i, c := 0, urls.Length;
      while i < c
        invariant urls == old(urls) && c == urls.Length == |input|
        invariant 0 <= i <= c
        invariant seen == Normalized(input)[..i]
        invariant forall k :: 0 <= k < i ==> urls[k] == seen[k]
        invariant forall k :: i <= k < c ==> urls[k] == input[k]
        invariant groups == GroupsAfter(old(groups), seen)
        invariant grouped == GroupedAfter(old(grouped), seen)
      {
        var url := Validate(urls[i], i);

        urls[i] := url;

        GroupsAfterSnoc(old(groups), seen, url);
        GroupedAfterSnoc(old(grouped), seen, url);
        Register(url);
        assert groups == GroupsAfter(old(groups), seen + [url]);
        assert grouped == GroupedAfter(old(grouped), seen + [url]);

        NormalizedPrefixSnoc(input, i);
        seen := seen + [url];
        i := i + 1;
      }
      assert urls[..] == seen;
    }
  }
}
