/** The tag universe offered to the tag selector: every site's tags flattened,
    first occurrences kept, absent and empty tags dropped, then sorted. */
module Tags {
  import opened Types
  import opened Seqs
  import opened TagOrder

  /** One site's contribution to `sites.map(site => site.tags).flat()`: its
      tags, or a single absent element when it has no tag list. */
  function SiteTags(site: Site): (r: seq<Option<string>>)
    ensures forall t :: Some(t) in r <==> HasTag(site, t)
    ensures None in r <==> site.tags.None?
    ensures site.tags.None? ==> r == [None]
    ensures site.tags.Some? ==> |r| == |site.tags.value|
  {
    match site.tags
    case None => [None]
    case Some(ts) =>
      var r := seq(|ts|, i requires 0 <= i < |ts| => Some(ts[i]));
      assert forall t :: Some(t) in r ==> t in ts;
      assert forall t :: t in ts ==> Some(t) in r by {
        forall t | t in ts ensures Some(t) in r {
          var i :| 0 <= i < |ts| && ts[i] == t;
          assert r[i] == Some(t);
        }
      }
      r
  }

  /** `rawTags`: the flattened tag lists of all sites, in site order. */
  function RawTags(sites: seq<Site>): (r: seq<Option<string>>)
    ensures forall t :: Some(t) in r <==> exists i :: 0 <= i < |sites| && HasTag(sites[i], t)
    ensures None in r <==> exists i :: 0 <= i < |sites| && sites[i].tags.None?
    decreases |sites|
  {
    if sites == [] then []
    else
      var r := SiteTags(sites[0]) + RawTags(sites[1..]);
      assert forall i :: 0 < i < |sites| ==> sites[i] == sites[1..][i - 1];
      assert forall t :: (exists i :: 0 <= i < |sites| && HasTag(sites[i], t)) ==>
        HasTag(sites[0], t) || exists i :: 0 <= i < |sites[1..]| && HasTag(sites[1..][i], t);
      assert (exists i :: 0 <= i < |sites| && sites[i].tags.None?) ==>
        sites[0].tags.None? || exists i :: 0 <= i < |sites[1..]| && sites[1..][i].tags.None?;
      r
  }

  /** `raw.filter((tag, idx) => raw.indexOf(tag) === idx)` started at position
      `i`: each value is kept at its first occurrence only. */
  function KeepFirstFrom<T(==,!new)>(raw: seq<T>, i: nat): (r: seq<T>)
    requires i <= |raw|
    ensures forall x :: x in r <==> IndexOf(raw, x) >= i
    ensures NoDuplicates(r)
    decreases |raw| - i
  {
    if i == |raw| then []
    else
      var rest := KeepFirstFrom(raw, i + 1);
      var k := IndexOf(raw, raw[i]);
      assert forall x :: IndexOf(raw, x) == i ==> x == raw[i];
      if k == i then [raw[i]] + rest else rest
  }

  /** The duplicate filter over the whole flattened list. */
  function KeepFirst<T(==,!new)>(raw: seq<T>): (r: seq<T>)
    ensures forall x :: x in r <==> x in raw
    ensures NoDuplicates(r)
  {
    KeepFirstFrom(raw, 0)
  }

  /** `.filter(tag => tag != null && tag.length > 0)`. */
  function PresentTags(s: seq<Option<string>>): (r: seq<string>)
    ensures forall t :: t in r <==> |t| > 0 && Some(t) in s
    ensures NoDuplicates(s) ==> NoDuplicates(r)
    decreases |s|
  {
    if s == [] then []
    else
      var rest := PresentTags(s[1..]);
      assert s == [s[0]] + s[1..];
      if s[0].Some? && |s[0].value| > 0 then
        assert NoDuplicates(s) ==> s[0] !in s[1..];
        [s[0].value] + rest
      else rest
  }

  /** `tags`: the tag universe computed on every render. */
  function TagUniverse(sites: seq<Site>): seq<string>
  {
    SortTags(PresentTags(KeepFirst(RawTags(sites))))
  }

  /** The tag universe is sorted, free of duplicates and of empty strings, and
      holds exactly the non-empty tags some site carries. */
  lemma TagUniverseSpec(sites: seq<Site>)
    ensures Sorted(TagUniverse(sites))
    ensures NoDuplicates(TagUniverse(sites))
    ensures forall t :: t in TagUniverse(sites) <==>
      |t| > 0 && exists i :: 0 <= i < |sites| && HasTag(sites[i], t)
  {
    var present := PresentTags(KeepFirst(RawTags(sites)));
    SortTagsProperties(present);
    forall t ensures t in TagUniverse(sites) <==> t in present {
      assert t in TagUniverse(sites) <==> t in multiset(TagUniverse(sites));
      assert t in present <==> t in multiset(present);
    }
  }

  /** The universe is determined by the set of tags alone: any sorted,
      duplicate-free list of exactly those tags is the universe. */
  lemma TagUniverseUnique(sites: seq<Site>, u: seq<string>)
    requires Sorted(u) && NoDuplicates(u)
    requires forall t :: t in u <==> |t| > 0 && exists i :: 0 <= i < |sites| && HasTag(sites[i], t)
    ensures u == TagUniverse(sites)
  {
    TagUniverseSpec(sites);
    SortedUnique(u, TagUniverse(sites));
  }

  /** The universe for tag lists ["a", "b"], ["b"], [] and an absent list. */
  lemma ExampleUniverse()
    ensures TagUniverse([
      Site("1", "01", false, Some(["a", "b"])),
      Site("2", "02", false, Some(["b"])),
      Site("3", "03", false, Some([])),
      Site("4", "04", false, None)]) == ["a", "b"]
  {
    var sites := [
      Site("1", "01", false, Some(["a", "b"])),
      Site("2", "02", false, Some(["b"])),
      Site("3", "03", false, Some([])),
      Site("4", "04", false, None)];
    var u := ["a", "b"];
    assert LexLe("a", "b");
    assert HasTag(sites[0], "a") && HasTag(sites[0], "b");
    forall t | |t| > 0 && exists i :: 0 <= i < |sites| && HasTag(sites[i], t) ensures t in u {
      var i :| 0 <= i < |sites| && HasTag(sites[i], t);
      assert i < 2;
    }
    TagUniverseUnique(sites, u);
  }
}
