/** The updates the grid applies to its local copy of the site list after the
    repository has confirmed an add, a delete or an update. */
module CacheUpdates {
  import opened Types
  import opened Seqs
  import opened Tags
  import opened Visibility

  /** `sites.concat([site])` after a successful add. */
  function AddLocal(sites: seq<Site>, site: Site): (r: seq<Site>)
    ensures |r| == |sites| + 1 && r[..|sites|] == sites && r[|sites|] == site
  {
    sites + [site]
  }

  /** `sites.filter(site => site._id !== id)` after a successful delete. */
  function RemoveById(sites: seq<Site>, id: string): (r: seq<Site>)
    ensures IsSubsequence(r, sites)
    ensures forall s :: s in r <==> s in sites && s.id != id
    ensures forall s :: multiset(r)[s] == if s.id != id then multiset(sites)[s] else 0
    ensures (forall i :: 0 <= i < |sites| ==> sites[i].id != id) ==> r == sites
  {
    FilterSpec(sites, (s: Site) => s.id != id);
    Filter(sites, (s: Site) => s.id != id)
  }

  /** The `sites.map` of a successful favorite update: the entries whose `id`
      matches get the new flag, everything else is kept. */
  function SetFavorite(sites: seq<Site>, id: string, isFavorite: bool): (r: seq<Site>)
    ensures |r| == |sites|
    ensures forall i :: 0 <= i < |sites| ==>
      r[i].id == sites[i].id && r[i].siteId == sites[i].siteId && r[i].tags == sites[i].tags
    ensures forall i :: 0 <= i < |sites| ==>
      r[i].isFavorite == if sites[i].id == id then isFavorite else sites[i].isFavorite
    ensures forall i :: 0 <= i < |sites| && sites[i].id != id ==> r[i] == sites[i]
    decreases |sites|
  {
    if sites == [] then []
    else
      var head := if sites[0].id == id then sites[0].(isFavorite := isFavorite) else sites[0];
      [head] + SetFavorite(sites[1..], id, isFavorite)
  }

  /** The `sites.map` of a successful tag update: the entries whose `id`
      matches get the replacement tags, everything else is kept. */
  function UpdateTags(sites: seq<Site>, id: string, tags: seq<string>): (r: seq<Site>)
    ensures |r| == |sites|
    ensures forall i :: 0 <= i < |sites| ==>
      r[i].id == sites[i].id && r[i].siteId == sites[i].siteId && r[i].isFavorite == sites[i].isFavorite
    ensures forall i :: 0 <= i < |sites| ==>
      r[i].tags == if sites[i].id == id then Some(tags) else sites[i].tags
    ensures forall i :: 0 <= i < |sites| && sites[i].id != id ==> r[i] == sites[i]
    decreases |sites|
  {
    if sites == [] then []
    else
      var head := if sites[0].id == id then sites[0].(tags := Some(tags)) else sites[0];
      [head] + UpdateTags(sites[1..], id, tags)
  }

  /** With unique ids, deleting a present id removes exactly one entry. */
  lemma {:induction false} RemoveByIdRemovesOne(sites: seq<Site>, id: string)
    requires UniqueIds(sites)
    requires exists i :: 0 <= i < |sites| && sites[i].id == id
    ensures |RemoveById(sites, id)| == |sites| - 1
    decreases |sites|
  {
    var p := (s: Site) => s.id != id;
    assert forall i :: 0 < i < |sites| ==> sites[1..][i - 1] == sites[i];
    if sites[0].id == id {
      FilterAll(sites[1..], p);
    } else {
      RemoveByIdRemovesOne(sites[1..], id);
      assert RemoveById(sites, id) == [sites[0]] + RemoveById(sites[1..], id);
    }
  }

  /** Deleting a site that was just added with a fresh id gives back the list. */
  lemma AddThenRemove(sites: seq<Site>, site: Site)
    requires forall i :: 0 <= i < |sites| ==> sites[i].id != site.id
    ensures RemoveById(AddLocal(sites, site), site.id) == sites
  {
    var p := (s: Site) => s.id != site.id;
    FilterAppend(sites, [site], p);
    FilterAll(sites, p);
  }

  /** Deleting twice is deleting once. */
  lemma RemoveByIdIdempotent(sites: seq<Site>, id: string)
    ensures RemoveById(RemoveById(sites, id), id) == RemoveById(sites, id)
  {
    var r := RemoveById(sites, id);
    assert forall i :: 0 <= i < |r| ==> r[i] in r;
  }

  /** Deleting keeps the ids unique. */
  lemma {:induction false} RemoveByIdUnique(sites: seq<Site>, id: string)
    requires UniqueIds(sites)
    ensures UniqueIds(RemoveById(sites, id))
    decreases |sites|
  {
    if sites != [] {
      assert forall i :: 0 < i < |sites| ==> sites[1..][i - 1] == sites[i];
      RemoveByIdUnique(sites[1..], id);
      var rest := RemoveById(sites[1..], id);
      if sites[0].id != id {
        assert RemoveById(sites, id) == [sites[0]] + rest;
        forall s | s in rest ensures s.id != sites[0].id {
          var k :| 0 <= k < |sites[1..]| && sites[1..][k] == s;
        }
      }
    }
  }

  /** Changing a favorite flag leaves the tag universe as it was. */
  lemma {:induction false} SetFavoriteKeepsRawTags(sites: seq<Site>, id: string, isFavorite: bool)
    ensures RawTags(SetFavorite(sites, id, isFavorite)) == RawTags(sites)
    decreases |sites|
  {
    if sites != [] {
      var r := SetFavorite(sites, id, isFavorite);
      SetFavoriteKeepsRawTags(sites[1..], id, isFavorite);
      assert r[1..] == SetFavorite(sites[1..], id, isFavorite);
    }
  }

  lemma SetFavoriteKeepsTagUniverse(sites: seq<Site>, id: string, isFavorite: bool)
    ensures TagUniverse(SetFavorite(sites, id, isFavorite)) == TagUniverse(sites)
  {
    SetFavoriteKeepsRawTags(sites, id, isFavorite);
  }

  /** After a tag update the universe holds the non-empty replacement tags
      (when the id is present) and the tags of every other entry. */
  lemma UpdateTagsUniverse(sites: seq<Site>, id: string, tags: seq<string>)
    ensures forall t :: t in TagUniverse(UpdateTags(sites, id, tags)) <==>
      |t| > 0 &&
      ((t in tags && exists k :: 0 <= k < |sites| && sites[k].id == id) ||
       (exists i :: 0 <= i < |sites| && sites[i].id != id && HasTag(sites[i], t)))
  {
    var r := UpdateTags(sites, id, tags);
    TagUniverseSpec(r);
    TagUniverseSpec(sites);
    forall t ensures (exists i :: 0 <= i < |r| && HasTag(r[i], t)) <==>
      ((t in tags && exists k :: 0 <= k < |sites| && sites[k].id == id) ||
       (exists i :: 0 <= i < |sites| && sites[i].id != id && HasTag(sites[i], t)))
    {
      if exists i :: 0 <= i < |r| && HasTag(r[i], t) {
        var i :| 0 <= i < |r| && HasTag(r[i], t);
        if sites[i].id == id {
          assert t in tags;
        } else {
          assert HasTag(sites[i], t);
        }
      }
      if t in tags && exists k :: 0 <= k < |sites| && sites[k].id == id {
        var k :| 0 <= k < |sites| && sites[k].id == id;
        assert HasTag(r[k], t);
      }
      if exists i :: 0 <= i < |sites| && sites[i].id != id && HasTag(sites[i], t) {
        var i :| 0 <= i < |sites| && sites[i].id != id && HasTag(sites[i], t);
        assert HasTag(r[i], t);
      }
    }
  }

  /** Favoriting a site makes it visible under the favorites filter whenever
      it has a flow series, whatever tags are selected. */
  lemma FavoriteShownUnderFavoritesFilter(sites: seq<Site>, id: string, flows: seq<FlowSeries>,
                                          filters: seq<SiteFilter>, selectedTags: seq<string>)
    requires Favorites in filters
    ensures forall i :: 0 <= i < |sites| && sites[i].id == id && HasFlow(flows, sites[i].siteId) ==>
      SetFavorite(sites, id, true)[i] in VisibleSites(SetFavorite(sites, id, true), flows, filters, selectedTags)
  {
    var r := SetFavorite(sites, id, true);
    forall i | 0 <= i < |sites| && sites[i].id == id && HasFlow(flows, sites[i].siteId)
      ensures r[i] in VisibleSites(r, flows, filters, selectedTags)
    {
      assert r[i] in r;
      assert Shown(flows, filters, selectedTags, r[i]);
    }
  }
}
