/** What `validateGroups` guarantees, stated over the functions that specify it:
    indices, the fall-back values, the group-name registry (no duplicates,
    first-seen order) and the partition of the entries into groups. */
module GroupingFacts {
  import opened JsValues
  import opened Grouping

  predicate NoDup<T(==)>(s: seq<T>) {
    forall j, k :: 0 <= j < k < |s| ==> s[j] != s[k]
  }

  /** Some element of `es` belongs to group `g`. */
  predicate HasGroup(es: seq<Item>, g: string) {
    exists i :: 0 <= i < |es| && GroupOf(es[i]) == g
  }

  /** Position of the first element of group `g` in `es`, or `|es|` if none. */
  function FirstIndex(es: seq<Item>, g: string): (r: nat)
    ensures r <= |es|
  {
    if es == [] then 0
    else
      var p := FirstIndex(es[..|es| - 1], g);
      if p < |es| - 1 then p
      else if GroupOf(es[|es| - 1]) == g then |es| - 1
      else |es|
  }

  /** The entries of group `g`, in list order. */
  function Members(es: seq<Item>, g: string): seq<Item>
  {
    if es == [] then []
    else
      var e := es[|es| - 1];
      Members(es[..|es| - 1], g) + (if GroupOf(e) == g then [e] else [])
  }

  function Lookup(m: map<string, seq<Item>>, g: string): seq<Item> {
    if g in m then m[g] else []
  }

  /** Total length of the lists that `m` holds for the names in `names`. */
  function MemberCount(names: seq<string>, m: map<string, seq<Item>>): nat {
    if names == [] then 0 else |Lookup(m, names[0])| + MemberCount(names[1..], m)
  }

  /** The index an entry carries, or -1 for an element that has none. */
  function IndexOf(x: Item): int {
    if x.Rec? && x.index.Some? then x.index.value else -1
  }

  lemma HasGroupSnoc(es: seq<Item>, e: Item, g: string)
    ensures HasGroup(es + [e], g) <==> HasGroup(es, g) || GroupOf(e) == g
  {
    var s := es + [e];
    if HasGroup(s, g) && GroupOf(e) != g {
      var i :| 0 <= i < |s| && GroupOf(s[i]) == g;
      assert i < |es| && s[i] == es[i];
    }
    if HasGroup(es, g) {
      var i :| 0 <= i < |es| && GroupOf(es[i]) == g;
      assert s[i] == es[i];
    }
    if GroupOf(e) == g {
      assert s[|es|] == e;
    }
  }

  /** Validation keeps the length, gives element `i` the index `i`, and leaves no
      falsy element, so the emptiness test at the start of `processUrl` cannot
      fire on a validated entry. */
  lemma ValidatedShape(s: seq<Item>)
    ensures |Normalized(s)| == |s|
    ensures Indexed(Normalized(s))
    ensures forall i :: 0 <= i < |s| ==> ItemTruthy(Normalized(s)[i])
  {
  }

  /** The fall-backs: a record's falsy url becomes "", its falsy group "Default";
      truthy fields stay; any other element `v` becomes `{group: 'Default', url: v}`. */
  lemma NormalizeFallbacks(x: Item, i: nat)
    ensures x.Rec? ==> Normalize(x, i).url == (if Truthy(x.url) then x.url else Some(""))
    ensures x.Rec? ==> Normalize(x, i).group == (if Truthy(x.group) then x.group else Some(DefaultGroup))
    ensures x.Bare? ==> Normalize(x, i) == Rec(x.value, Some(DefaultGroup), Some(i))
  {
  }

  lemma {:induction false} FirstIndexSpec(es: seq<Item>, g: string)
    ensures FirstIndex(es, g) < |es| ==> GroupOf(es[FirstIndex(es, g)]) == g
    ensures forall i :: 0 <= i < FirstIndex(es, g) && i < |es| ==> GroupOf(es[i]) != g
    ensures FirstIndex(es, g) < |es| <==> HasGroup(es, g)
  {
    if es != [] {
      var n := |es|;
      var pre := es[..n - 1];
      FirstIndexSpec(pre, g);
      HasGroupSnoc(pre, es[n - 1], g);
      assert pre + [es[n - 1]] == es;
      forall i | 0 <= i < FirstIndex(es, g) && i < n
        ensures GroupOf(es[i]) != g
      {
        if i < n - 1 {
          assert es[i] == pre[i];
        }
      }
    }
  }

  /** `groups` keeps its initial names as a prefix, stays free of duplicates,
      and gains exactly the group names of the visited entries; each added name
      was new and occurs in the entries. */
  lemma {:induction false} GroupsAfterFacts(gs: seq<string>, es: seq<Item>)
    ensures |gs| <= |GroupsAfter(gs, es)| && GroupsAfter(gs, es)[..|gs|] == gs
    ensures NoDup(gs) ==> NoDup(GroupsAfter(gs, es))
    ensures forall g :: g in GroupsAfter(gs, es) <==> g in gs || HasGroup(es, g)
    ensures forall j :: |gs| <= j < |GroupsAfter(gs, es)| ==>
      GroupsAfter(gs, es)[j] !in gs && HasGroup(es, GroupsAfter(gs, es)[j])
  {
    if es != [] {
      var n := |es|;
      var pre, e := es[..n - 1], es[n - 1];
      assert pre + [e] == es;
      GroupsAfterFacts(gs, pre);
      var p := GroupsAfter(gs, pre);
      forall g
        ensures HasGroup(es, g) <==> HasGroup(pre, g) || GroupOf(e) == g
      {
        HasGroupSnoc(pre, e, g);
      }
      if GroupOf(e) !in p {
        assert GroupsAfter(gs, es) == p + [GroupOf(e)];
        assert (p + [GroupOf(e)])[..|gs|] == p[..|gs|];
      }
    }
  }

  /** New group names are listed in the order in which they are first seen. */
  lemma {:induction false} GroupsFirstSeenOrder(gs: seq<string>, es: seq<Item>)
    ensures forall j, k :: |gs| <= j < k < |GroupsAfter(gs, es)| ==>
      FirstIndex(es, GroupsAfter(gs, es)[j]) < FirstIndex(es, GroupsAfter(gs, es)[k]) < |es|
  {
    if es != [] {
      var n := |es|;
      var pre, e := es[..n - 1], es[n - 1];
      assert pre + [e] == es;
      GroupsFirstSeenOrder(gs, pre);
      GroupsAfterFacts(gs, pre);
      GroupsAfterFacts(gs, es);
      var p := GroupsAfter(gs, pre);
      var r := GroupsAfter(gs, es);
      forall j | |gs| <= j < |p|
        ensures FirstIndex(es, p[j]) == FirstIndex(pre, p[j]) < n - 1
      {
        FirstIndexSpec(pre, p[j]);
      }
      if GroupOf(e) !in p {
        var g := GroupOf(e);
        assert r == p + [g];
        FirstIndexSpec(pre, g);
        assert FirstIndex(es, g) == n - 1;
        forall j, k | |gs| <= j < k < |r|
          ensures FirstIndex(es, r[j]) < FirstIndex(es, r[k]) < n
        {
          if k == |p| {
            assert r[j] == p[j];
          } else {
            assert r[j] == p[j] && r[k] == p[k];
          }
        }
      }
    }
  }

  /** `grouped` gains a key for every group of the visited entries, and each list
      is extended by exactly that group's entries, in list order. */
  lemma {:induction false} GroupedAfterFacts(m: map<string, seq<Item>>, es: seq<Item>)
    ensures forall g :: g in GroupedAfter(m, es) <==> g in m || HasGroup(es, g)
    ensures forall g :: g in GroupedAfter(m, es) ==>
      GroupedAfter(m, es)[g] == Lookup(m, g) + Members(es, g)
  {
    if es != [] {
      var n := |es|;
      var pre, e := es[..n - 1], es[n - 1];
      assert pre + [e] == es;
      GroupedAfterFacts(m, pre);
      var p := GroupedAfter(m, pre);
      forall g
        ensures HasGroup(es, g) <==> HasGroup(pre, g) || GroupOf(e) == g
        ensures g !in p ==> Members(pre, g) == []
      {
        HasGroupSnoc(pre, e, g);
        MembersFacts(pre, g);
      }
    }
  }

  /** `Members(es, g)` holds exactly the entries of group `g`; it is empty only
      when no entry has that group. */
  lemma {:induction false} MembersFacts(es: seq<Item>, g: string)
    ensures forall x :: x in Members(es, g) <==> x in es && GroupOf(x) == g
    ensures Members(es, g) != [] <==> HasGroup(es, g)
  {
    if es != [] {
      var n := |es|;
      var pre, e := es[..n - 1], es[n - 1];
      assert pre + [e] == es;
      MembersFacts(pre, g);
      HasGroupSnoc(pre, e, g);
    }
  }

  /** On a validated list the entries of a group are kept in ascending index order. */
  lemma {:induction false} MembersAscending(es: seq<Item>, g: string)
    requires Indexed(es)
    ensures forall a, b :: 0 <= a < b < |Members(es, g)| ==>
      IndexOf(Members(es, g)[a]) < IndexOf(Members(es, g)[b])
  {
    if es != [] {
      var n := |es|;
      var pre, e := es[..n - 1], es[n - 1];
      assert Indexed(pre);
      MembersAscending(pre, g);
      MembersFacts(pre, g);
      var f := Members(pre, g);
      assert IndexOf(e) == n - 1;
      forall x | x in f
        ensures IndexOf(x) < n - 1
      {
        var i :| 0 <= i < |pre| && pre[i] == x;
      }
      var r := Members(es, g);
      forall a, b | 0 <= a < b < |r|
        ensures IndexOf(r[a]) < IndexOf(r[b])
      {
        assert r[a] == f[a];
        if b < |f| {
          assert r[b] == f[b];
        } else {
          assert r[a] in f;
        }
      }
    }
  }

  lemma {:induction false} MemberCountAppend(names: seq<string>, g: string, m: map<string, seq<Item>>)
    ensures MemberCount(names + [g], m) == MemberCount(names, m) + |Lookup(m, g)|
  {
    if names != [] {
      assert (names + [g])[1..] == names[1..] + [g];
      MemberCountAppend(names[1..], g, m);
    }
  }

  lemma {:induction false} MemberCountUpdate(names: seq<string>, m: map<string, seq<Item>>, g: string, v: seq<Item>)
    requires NoDup(names)
    ensures MemberCount(names, m[g := v]) + (if g in names then |Lookup(m, g)| else 0)
         == MemberCount(names, m) + (if g in names then |v| else 0)
  {
    if names != [] {
      var rest := names[1..];
      assert NoDup(rest);
      assert g in names <==> g == names[0] || g in rest;
      assert g == names[0] ==> g !in rest;
      MemberCountUpdate(rest, m, g, v);
    }
  }

  /** Starting from `groups == ['Default']` and `grouped == {}`: the names stay
      distinct, every key of `grouped` is a listed group with a non-empty list,
      and the lists' lengths add up to the number of entries. */
  lemma {:induction false} GroupsPartitionEntries(es: seq<Item>)
    ensures NoDup(GroupsAfter([DefaultGroup], es))
    ensures forall g :: g in GroupedAfter(map[], es) ==>
      g in GroupsAfter([DefaultGroup], es) && GroupedAfter(map[], es)[g] != []
    ensures MemberCount(GroupsAfter([DefaultGroup], es), GroupedAfter(map[], es)) == |es|
  {
    var gs := GroupsAfter([DefaultGroup], es);
    var gm := GroupedAfter(map[], es);
    if es == [] {
      assert MemberCount([DefaultGroup], map[]) == 0;
    } else {
      var n := |es|;
      var pre, e := es[..n - 1], es[n - 1];
      assert pre + [e] == es;
      GroupsPartitionEntries(pre);
      var p := GroupsAfter([DefaultGroup], pre);
      var q := GroupedAfter(map[], pre);
      var g := GroupOf(e);
      var v := Lookup(q, g) + [e];
      assert gm == q[g := v];
      MemberCountUpdate(p, q, g, v);
      if g !in p {
        assert gs == p + [g];
        assert g !in q;
        MemberCountAppend(p, g, q[g := v]);
        assert Lookup(q[g := v], g) == [e];
      }
    }
  }

  /** As written, no validated entry is ever skipped. */
  lemma AsWrittenSkipsNothing(s: seq<Item>)
    ensures forall i :: 0 <= i < |s| ==> !SkippedAsWritten(Normalized(s)[i])
  {
  }

  /** So a record with an empty url, which validation marks "to be skipped" by
      setting its url to "", still goes to the capture tool. */
  lemma EmptyUrlCapturedAsWritten()
    ensures var e := Normalized([Rec(Some(""), Some("News"), None)])[0];
      e.url == Some("") && !SkippedAsWritten(e)
  {
  }

  /** With the intended test, a validated entry is skipped exactly when the url
      its input element carried was falsy. */
  lemma SkippedIffInputUrlFalsy(s: seq<Item>)
    ensures forall i :: 0 <= i < |s| ==> (Skipped(Normalized(s)[i]) <==> !Truthy(UrlOf(s[i])))
  {
  }

  /** The six-element list of the example driver script. */
  const DriverUrls: seq<Item> := [
    Rec(Some("http://leanin.org/circles/"), Some("Circles"), None),
    Rec(Some("http://leanin.org/circle-login/"), Some("Circles"), None),
    Rec(Some("http://leanin.org/circle-faqs/"), Some("Circles"), None),
    Bare(Some("http://leanin.org")),
    Rec(Some("http://leanin.org/team/"), None, None),
    Rec(Some("http://leanin.org/news-inspiration/"), Some("News+Inspiration"), None)
  ]

  function Indices(s: seq<Item>): seq<int> {
    seq(|s|, i requires 0 <= i < |s| => IndexOf(s[i]))
  }

  /** The groups of the six validated driver entries. */
  predicate DriverShape(es: seq<Item>) {
    |es| == 6
    && GroupOf(es[0]) == GroupOf(es[1]) == GroupOf(es[2]) == "Circles"
    && GroupOf(es[3]) == GroupOf(es[4]) == DefaultGroup
    && GroupOf(es[5]) == "News+Inspiration"
  }

  lemma DriverGroupsOf(es: seq<Item>)
    requires es == Normalized(DriverUrls)
    ensures DriverShape(es)
    ensures Indexed(es)
  {
  }

  lemma DriverGroupNames(es: seq<Item>)
    requires DriverShape(es)
    ensures GroupsAfter([DefaultGroup], es) == [DefaultGroup, "Circles", "News+Inspiration"]
  {
    var g0 := [DefaultGroup];
    assert es[..0] == [];
    assert GroupsAfter(g0, es[..1]) == g0 + ["Circles"] by {
      assert es[..1] == es[..0] + [es[0]];
      GroupsAfterSnoc(g0, es[..0], es[0]);
    }
    assert GroupsAfter(g0, es[..2]) == g0 + ["Circles"] by {
      assert es[..2] == es[..1] + [es[1]];
      GroupsAfterSnoc(g0, es[..1], es[1]);
    }
    assert GroupsAfter(g0, es[..3]) == g0 + ["Circles"] by {
      assert es[..3] == es[..2] + [es[2]];
      GroupsAfterSnoc(g0, es[..2], es[2]);
    }
    assert GroupsAfter(g0, es[..4]) == g0 + ["Circles"] by {
      assert es[..4] == es[..3] + [es[3]];
      GroupsAfterSnoc(g0, es[..3], es[3]);
    }
    assert GroupsAfter(g0, es[..5]) == g0 + ["Circles"] by {
      assert es[..5] == es[..4] + [es[4]];
      GroupsAfterSnoc(g0, es[..4], es[4]);
    }
    assert GroupsAfter(g0, es[..6]) == g0 + ["Circles", "News+Inspiration"] by {
      assert es[..6] == es[..5] + [es[5]];
      GroupsAfterSnoc(g0, es[..5], es[5]);
    }
    assert es[..6] == es;
  }

  lemma DriverGroupedPrefix(es: seq<Item>)
    requires DriverShape(es)
    ensures GroupedAfter(map[], es[..3]) == map["Circles" := [es[0], es[1], es[2]]]
  {
    var m0: map<string, seq<Item>> := map[];
    assert es[..0] == [];
    assert GroupedAfter(m0, es[..1]) == map["Circles" := [es[0]]] by {
      assert es[..1] == es[..0] + [es[0]];
      GroupedAfterSnoc(m0, es[..0], es[0]);
      
    }
    assert GroupedAfter(m0, es[..2]) == map["Circles" := [es[0], es[1]]] by {
      assert es[..2] == es[..1] + [es[1]];
      GroupedAfterSnoc(m0, es[..1], es[1]);
      assert [es[0]] + [es[1]] == [es[0], es[1]];
    }
    assert GroupedAfter(m0, es[..3]) == map["Circles" := [es[0], es[1], es[2]]] by {
      assert es[..3] == es[..2] + [es[2]];
      GroupedAfterSnoc(m0, es[..2], es[2]);
      assert [es[0], es[1]] + [es[2]] == [es[0], es[1], es[2]];
    }
  }

  lemma DriverGrouped(es: seq<Item>)
    requires DriverShape(es)
    ensures GroupedAfter(map[], es) ==
      map["Circles" := [es[0], es[1], es[2]], DefaultGroup := [es[3], es[4]], "News+Inspiration" := [es[5]]]
  {
    DriverGroupedPrefix(es);
    var m0: map<string, seq<Item>> := map[];
    assert GroupedAfter(m0, es[..4]) == map["Circles" := [es[0], es[1], es[2]], DefaultGroup := [es[3]]] by {
      assert es[..4] == es[..3] + [es[3]];
      GroupedAfterSnoc(m0, es[..3], es[3]);
      assert DefaultGroup != "Circles" && [] + [es[3]] == [es[3]];
    }
    assert GroupedAfter(m0, es[..5]) == map["Circles" := [es[0], es[1], es[2]], DefaultGroup := [es[3], es[4]]] by {
      assert es[..5] == es[..4] + [es[4]];
      GroupedAfterSnoc(m0, es[..4], es[4]);
      assert [es[3]] + [es[4]] == [es[3], es[4]];
    }
    assert GroupedAfter(m0, es[..6]) == map["Circles" := [es[0], es[1], es[2]], DefaultGroup := [es[3], es[4]], "News+Inspiration" := [es[5]]] by {
      assert es[..6] == es[..5] + [es[5]];
      GroupedAfterSnoc(m0, es[..5], es[5]);
      assert "News+Inspiration" != "Circles" && "News+Inspiration" != DefaultGroup && [] + [es[5]] == [es[5]];
    }
    assert es[..6] == es;
  }

  /** The example driver's list gives the groups Default, Circles and
      News+Inspiration, with the entries 0-2, 3-4 and 5 respectively. */
  lemma DriverExample()
    ensures GroupsAfter([DefaultGroup], Normalized(DriverUrls)) == [DefaultGroup, "Circles", "News+Inspiration"]
    ensures GroupedAfter(map[], Normalized(DriverUrls)).Keys == {"Circles", DefaultGroup, "News+Inspiration"}
    ensures Indices(GroupedAfter(map[], Normalized(DriverUrls))["Circles"]) == [0, 1, 2]
    ensures Indices(GroupedAfter(map[], Normalized(DriverUrls))[DefaultGroup]) == [3, 4]
    ensures Indices(GroupedAfter(map[], Normalized(DriverUrls))["News+Inspiration"]) == [5]
  {
    var es := Normalized(DriverUrls);
    DriverGroupsOf(es);
    DriverGroupNames(es);
    DriverGrouped(es);
  }
}
