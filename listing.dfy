/** The listing action of the content controller (`index`): which content
    types a container accepts, the two type filters, the container or public
    scope, the newest-first order, pagination, the "last updated" timestamp,
    and the renaming of generic post names in the XML output. */
module Listing {

  import opened CmsTypes
  import opened Text

  /** The collections the listing may show: the container's `:contents`
      option when there is a container that sets it, the site-wide list
      otherwise (Ruby's `a && b || c`). */
  function AcceptedCollections(container: Option<Container>, global: seq<string>): seq<string> {
    if container.Some? && container.value.contents.Some? then container.value.contents.value
    else global
  }

  predicate Supports(container: Option<Container>, global: seq<string>, cls: ContentClass) {
    cls.collection in AcceptedCollections(container, global)
  }

  /** The type column of the row a post's content id joins to. The join is
      `LEFT JOIN table ON table.id = content_id`; rows whose type is NULL, and
      ids with no row, are absent from `typeColumn`. */
  predicate StiMatch(cls: ContentClass, typeColumn: map<nat, string>, p: Post) {
    p.contentId in typeColumn && typeColumn[p.contentId] == cls.name
  }

  predicate MarkerMatch(cls: ContentClass, p: Post) {
    p.contentType == cls.name
  }

  /** Where a listing looks: one container's posts, or every public post. */
  datatype Scope = InContainer(ref: ContainerRef) | PublicPosts

  /** One query over the posts table: which type filter, and which scope. */
  datatype Query = Query(
    byTypeColumn: bool,
    cls: ContentClass,
    typeColumn: map<nat, string>,
    scope: Scope)

  predicate OfType(q: Query, p: Post) {
    if q.byTypeColumn then StiMatch(q.cls, q.typeColumn, p) else MarkerMatch(q.cls, p)
  }

  predicate InScope(scope: Scope, p: Post) {
    match scope
    case InContainer(ref) => p.container == Some(ref)
    case PublicPosts => p.publicRead
  }

  predicate Selects(q: Query, p: Post) {
    OfType(q, p) && InScope(q.scope, p)
  }

  /** The posts of `s` the query selects, in store order. */
  function Filter(s: seq<Post>, q: Query): (r: seq<Post>)
    ensures |r| <= |s|
    ensures forall p :: p in r <==> p in s && Selects(q, p)
    ensures multiset(r) <= multiset(s)
  {
    if |s| == 0 then []
    else
      assert s == [s[0]] + s[1..];
      if Selects(q, s[0]) then [s[0]] + Filter(s[1..], q)
      else Filter(s[1..], q)
  }

  /** Filtering keeps store order: the selection of a concatenation is the
      concatenation of the selections. With FilterOne this determines the
      selection completely. */
  lemma {:induction false} FilterKeepsOrder(s: seq<Post>, t: seq<Post>, q: Query)
    ensures Filter(s + t, q) == Filter(s, q) + Filter(t, q)
    decreases |s|
  {
    if |s| == 0 {
      assert s + t == t;
    } else {
      var st := s + t;
      assert st[0] == s[0];
      assert st[1..] == s[1..] + t;
      FilterKeepsOrder(s[1..], t, q);
      var head := if Selects(q, s[0]) then [s[0]] else [];
      assert Filter(st, q) == head + Filter(st[1..], q);
      assert Filter(s, q) == head + Filter(s[1..], q);
      assert head + (Filter(s[1..], q) + Filter(t, q)) == (head + Filter(s[1..], q)) + Filter(t, q);
    }
  }

  /** Filtering keeps every copy of a selected post and no copy of any other. */
  lemma {:induction false} FilterCounts(s: seq<Post>, q: Query, p: Post)
    ensures multiset(Filter(s, q))[p] == if Selects(q, p) then multiset(s)[p] else 0
  {
    if |s| > 0 {
      FilterCounts(s[1..], q, p);
      assert s == [s[0]] + s[1..];
      assert multiset(s) == multiset{s[0]} + multiset(s[1..]);
    }
  }

  /** A single post is selected or dropped on its own. */
  lemma FilterOne(p: Post, q: Query)
    ensures Filter([p], q) == if Selects(q, p) then [p] else []
  {
    assert [p][1..] == [];
  }

  /** The two type filters pick the same posts, in the same order, from a
      store where every post's type column agrees with its type marker. */
  lemma {:induction false} FilterStrategiesAgree(s: seq<Post>, q: Query)
    requires forall p :: p in s ==> (StiMatch(q.cls, q.typeColumn, p) <==> MarkerMatch(q.cls, p))
    ensures Filter(s, q.(byTypeColumn := true)) == Filter(s, q.(byTypeColumn := false))
  {
    if |s| > 0 {
      assert s[0] in s;
      assert forall p :: p in s[1..] ==> p in s;
      FilterStrategiesAgree(s[1..], q);
    }
  }

  /** Without that agreement they differ: the join matches on the content id
      alone, so under the type-column filter a post whose marker names another
      class is listed when its id hits a row of the right type. */
  lemma JoinIgnoresMarker(cls: ContentClass, other: string, ref: ContainerRef)
    requires other != cls.name
    ensures
      var p := Post(1, Some(ref), 7, other, true, 0, []);
      var q := Query(true, cls, map[7 := cls.name], InContainer(ref));
      Filter([p], q) == [p] && Filter([p], q.(byTypeColumn := false)) == []
  {
    var p := Post(1, Some(ref), 7, other, true, 0, []);
    var q := Query(true, cls, map[7 := cls.name], InContainer(ref));
    assert Selects(q, p);
    assert [p][1..] == [];
  }

  /** Without a container the listing keeps public posts wherever they were
      posted: no condition on the container is applied. */
  lemma PublicListingKeepsContainerPosts(cls: ContentClass, ref: ContainerRef)
    ensures
      var p := Post(1, Some(ref), 3, cls.name, true, 0, []);
      Filter([p], Query(false, cls, map[], PublicPosts)) == [p]
  {
    var p := Post(1, Some(ref), 3, cls.name, true, 0, []);
    assert Selects(Query(false, cls, map[], PublicPosts), p);
    assert [p][1..] == [];
  }

  predicate NewestFirst(s: seq<Post>) {
    forall i, j :: 0 <= i < j < |s| ==> s[i].updatedAt >= s[j].updatedAt
  }

  /** Putting a post no older than the rest in front keeps the order. */
  lemma ConsNewestFirst(x: Post, s: seq<Post>)
    requires NewestFirst(s)
    requires forall y :: y in s ==> x.updatedAt >= y.updatedAt
    ensures NewestFirst([x] + s)
  {
    forall i, j | 0 <= i < j < |[x] + s|
      ensures ([x] + s)[i].updatedAt >= ([x] + s)[j].updatedAt
    {
      if i == 0 {
        assert ([x] + s)[j] == s[j - 1];
      } else {
        assert ([x] + s)[i] == s[i - 1] && ([x] + s)[j] == s[j - 1];
      }
    }
  }

  /** The first post of a newest-first sequence is at least as new as any. */
  lemma HeadIsNewest(s: seq<Post>)
    requires NewestFirst(s)
    ensures forall p :: p in s ==> s[0].updatedAt >= p.updatedAt
  {
    forall p | p in s ensures s[0].updatedAt >= p.updatedAt {
      var i :| 0 <= i < |s| && s[i] == p;
      if i > 0 {
        assert s[0].updatedAt >= s[i].updatedAt;
      }
    }
  }

  function Insert(p: Post, s: seq<Post>): (r: seq<Post>)
    requires NewestFirst(s)
    ensures NewestFirst(r)
    ensures multiset(r) == multiset(s) + multiset{p}
    ensures |r| == |s| + 1
  {
    if |s| == 0 then [p]
    else if p.updatedAt >= s[0].updatedAt then
      HeadIsNewest(s);
      ConsNewestFirst(p, s);
      [p] + s
    else
      var tail := Insert(p, s[1..]);
      assert s == [s[0]] + s[1..];
      HeadIsNewest(s);
      assert forall x :: x in tail ==> s[0].updatedAt >= x.updatedAt by {
        forall x | x in tail ensures s[0].updatedAt >= x.updatedAt {
          assert x in multiset(tail);
          assert x == p || x in s[1..];
        }
      }
      ConsNewestFirst(s[0], tail);
      [s[0]] + tail
  }

  /** The `updated_at DESC` order. Posts with equal timestamps keep their
      store order here; the database promises no order among them, and
      nothing below depends on it. */
  function SortNewestFirst(s: seq<Post>): (r: seq<Post>)
    ensures NewestFirst(r)
    ensures multiset(r) == multiset(s)
    ensures |r| == |s|
    ensures forall p :: p in r <==> p in s
  {
    if |s| == 0 then []
    else
      assert s == [s[0]] + s[1..];
      var r := Insert(s[0], SortNewestFirst(s[1..]));
      assert forall p :: p in r <==> p in s by {
        forall p ensures p in r <==> p in s {
          assert p in multiset(r) <==> p in multiset(s);
        }
      }
      r
  }

  /** The `n` posts of `s` from position `lo` on, fewer at the end. */
  function Window(s: seq<Post>, lo: nat, n: Positive): (r: seq<Post>)
    ensures |r| <= n
    ensures forall p :: p in r ==> p in s
    ensures NewestFirst(s) ==> NewestFirst(r)
    ensures lo >= |s| <==> r == []
    ensures forall k :: 0 <= k < |r| ==> lo + k < |s| && r[k] == s[lo + k]
  {
    if lo >= |s| then []
    else if lo + n <= |s| then s[lo..lo + n]
    else s[lo..]
  }

  /** Page `page` of `s`, `perPage` posts to a page, as sequence slicing. */
  function PageOf(s: seq<Post>, page: Positive, perPage: Positive): (r: seq<Post>)
    ensures |r| <= perPage
    ensures forall p :: p in r ==> p in s
    ensures NewestFirst(s) ==> NewestFirst(r)
    ensures (page - 1) * perPage >= |s| <==> r == []
    ensures forall k :: 0 <= k < |r| ==> (page - 1) * perPage + k < |s| && r[k] == s[(page - 1) * perPage + k]
  {
    Window(s, (page - 1) * perPage, perPage)
  }

  /** Paging loses nothing: post `k` of the sorted collection is entry
      `k % perPage` of page `k / perPage + 1`. */
  lemma EveryPostOnItsPage(s: seq<Post>, perPage: Positive, k: nat)
    requires k < |s|
    ensures k % perPage < |PageOf(s, k / perPage + 1, perPage)|
    ensures PageOf(s, k / perPage + 1, perPage)[k % perPage] == s[k]
    ensures s[k] in PageOf(s, k / perPage + 1, perPage)
  {
    var page := k / perPage + 1;
    assert (page - 1) * perPage + k % perPage == k;
    assert (page - 1) * perPage <= k;
  }

  /** The outcome of the listing action. */
  datatype IndexResult =
    | Unsupported            // 400 "Doesn't support this Content type"
    | Listed(posts: seq<Post>, updated: int)

  function ScopeOf(container: Option<Container>): Scope {
    if container.Some? then InContainer(container.value.ref) else PublicPosts
  }

  /** The query the listing runs: the class's own type filter, in the
      container or over public posts. */
  function ListingQuery(container: Option<Container>, cls: ContentClass, typeColumn: map<nat, string>): Query {
    Query(cls.hasTypeColumn, cls, typeColumn, ScopeOf(container))
  }

  /** The listing action. `typeColumn` is the type column of the class's
      table; `defaultPerPage` is the pagination library's page size, used by
      the public listing; `now` is the clock read when the public listing
      is empty. */
  function Index(
    container: Option<Container>, global: seq<string>, cls: ContentClass,
    typeColumn: map<nat, string>, posts: seq<Post>,
    page: Positive, defaultPerPage: Positive, now: int): (r: IndexResult)
    ensures r.Unsupported? <==> !Supports(container, global, cls)
  {
    if !Supports(container, global, cls) then Unsupported
    else
      var sorted := SortNewestFirst(Filter(posts, ListingQuery(container, cls, typeColumn)));
      if container.Some? then
        Listed(PageOf(sorted, page, cls.perPage),
               if sorted == [] then container.value.updatedAt else sorted[0].updatedAt)
      else
        var shown := PageOf(sorted, page, defaultPerPage);
        Listed(shown, if shown == [] then now else shown[0].updatedAt)
  }

  /** A supported listing shows stored posts of the requested type, from the
      requested container or public, newest first, at most one page of them. */
  lemma IndexListsOnePageOfSelectedPosts(
    container: Option<Container>, global: seq<string>, cls: ContentClass,
    typeColumn: map<nat, string>, posts: seq<Post>,
    page: Positive, defaultPerPage: Positive, now: int)
    requires Supports(container, global, cls)
    ensures
      var r := Index(container, global, cls, typeColumn, posts, page, defaultPerPage, now);
      && r.Listed?
      && NewestFirst(r.posts)
      && (forall p :: p in r.posts ==> p in posts && OfType(ListingQuery(container, cls, typeColumn), p))
      && (container.Some? ==> forall p :: p in r.posts ==> p.container == Some(container.value.ref))
      && (container.None? ==> forall p :: p in r.posts ==> p.publicRead)
      && |r.posts| <= (if container.Some? then cls.perPage else defaultPerPage)
  {
  }

  /** A supported listing shows exactly one page of the selected posts put
      newest first, of the class's page size in a container and of the
      default size otherwise. The order among posts with equal timestamps is
      left open, as the database leaves it. */
  lemma IndexShowsPageOfSelection(
    container: Option<Container>, global: seq<string>, cls: ContentClass,
    typeColumn: map<nat, string>, posts: seq<Post>,
    page: Positive, defaultPerPage: Positive, now: int)
    requires Supports(container, global, cls)
    ensures
      var r := Index(container, global, cls, typeColumn, posts, page, defaultPerPage, now);
      var size := if container.Some? then cls.perPage else defaultPerPage;
      && r.Listed?
      && exists sorted :: NewestFirst(sorted)
           && multiset(sorted) == multiset(Filter(posts, ListingQuery(container, cls, typeColumn)))
           && r.posts == PageOf(sorted, page, size)
  {
    var sorted := SortNewestFirst(Filter(posts, ListingQuery(container, cls, typeColumn)));
    assert NewestFirst(sorted);
  }

  /** The page the listing shows is a page of its sorted selection. */
  lemma IndexPage(
    container: Option<Container>, global: seq<string>, cls: ContentClass,
    typeColumn: map<nat, string>, posts: seq<Post>,
    page: Positive, defaultPerPage: Positive, now: int)
    requires Supports(container, global, cls)
    ensures Index(container, global, cls, typeColumn, posts, page, defaultPerPage, now).posts
      == PageOf(SortNewestFirst(Filter(posts, ListingQuery(container, cls, typeColumn))), page,
                if container.Some? then cls.perPage else defaultPerPage)
  {
  }

  /** No selected post is lost: each is shown on some page of the listing. */
  lemma IndexShowsEverySelectedPost(
    container: Option<Container>, global: seq<string>, cls: ContentClass,
    typeColumn: map<nat, string>, posts: seq<Post>, defaultPerPage: Positive, now: int, p: Post)
    requires Supports(container, global, cls)
    requires p in posts && Selects(ListingQuery(container, cls, typeColumn), p)
    ensures exists page: Positive ::
      p in Index(container, global, cls, typeColumn, posts, page, defaultPerPage, now).posts
  {
    var sorted := SortNewestFirst(Filter(posts, ListingQuery(container, cls, typeColumn)));
    var size: Positive := if container.Some? then cls.perPage else defaultPerPage;
    assert p in Filter(posts, ListingQuery(container, cls, typeColumn));
    PostOnSomePage(sorted, size, p);
    var page: Positive :| p in PageOf(sorted, page, size);
    IndexPage(container, global, cls, typeColumn, posts, page, defaultPerPage, now);
  }

  /** Every post of a collection is on some page of it. */
  lemma PostOnSomePage(s: seq<Post>, size: Positive, p: Post)
    requires p in s
    ensures exists page: Positive :: p in PageOf(s, page, size)
  {
    var k :| 0 <= k < |s| && s[k] == p;
    EveryPostOnItsPage(s, size, k);
    var page: Positive := k / size + 1;
    assert s[k] in PageOf(s, page, size);
  }

  /** In a container, "last updated" is the container's own timestamp when
      nothing of the type is there, and otherwise the newest post's. */
  lemma ContainerFreshness(
    container: Option<Container>, global: seq<string>, cls: ContentClass,
    typeColumn: map<nat, string>, posts: seq<Post>,
    page: Positive, defaultPerPage: Positive, now: int)
    requires Supports(container, global, cls) && container.Some?
    ensures
      var r := Index(container, global, cls, typeColumn, posts, page, defaultPerPage, now);
      var all := Filter(posts, ListingQuery(container, cls, typeColumn));
      && r.Listed?
      && (all == [] ==> r.updated == container.value.updatedAt)
      && (all != [] ==> (exists p :: p in all && p.updatedAt == r.updated)
                        && forall p :: p in all ==> p.updatedAt <= r.updated)
  {
    var all := Filter(posts, ListingQuery(container, cls, typeColumn));
    var sorted := SortNewestFirst(all);
    HeadIsNewest(sorted);
    if all != [] {
      assert sorted[0] in all;
    }
  }

  /** In the public listing, "last updated" is `now` when the page is empty and
      otherwise the page's first post, the newest on the page; on the first
      page that post is the newest of all selected posts. */
  lemma PublicFreshness(
    global: seq<string>, cls: ContentClass,
    typeColumn: map<nat, string>, posts: seq<Post>,
    page: Positive, defaultPerPage: Positive, now: int)
    requires Supports(None, global, cls)
    ensures
      var r := Index(None, global, cls, typeColumn, posts, page, defaultPerPage, now);
      && r.Listed?
      && (r.posts == [] ==> r.updated == now)
      && (r.posts != [] ==> r.updated == r.posts[0].updatedAt
                            && forall p :: p in r.posts ==> p.updatedAt <= r.updated)
      && (page == 1 && r.posts != [] ==>
            forall p :: p in Filter(posts, ListingQuery(None, cls, typeColumn)) ==> p.updatedAt <= r.updated)
  {
    var sorted := SortNewestFirst(Filter(posts, ListingQuery(None, cls, typeColumn)));
    var shown := PageOf(sorted, page, defaultPerPage);
    assert Index(None, global, cls, typeColumn, posts, page, defaultPerPage, now)
      == Listed(shown, if shown == [] then now else shown[0].updatedAt);
    HeadIsNewest(shown);
    if page == 1 {
      FirstPageHeadIsNewest(sorted, defaultPerPage);
    }
  }

  /** The first page starts with the newest post. */
  lemma FirstPageHeadIsNewest(s: seq<Post>, perPage: Positive)
    requires NewestFirst(s)
    ensures PageOf(s, 1, perPage) != [] ==> forall p :: p in s ==> p.updatedAt <= PageOf(s, 1, perPage)[0].updatedAt
  {
    HeadIsNewest(s);
    assert (1 - 1) * perPage == 0;
  }

  /** The XML rendering, `to_xml.gsub(/cms\/posts/, tableized).gsub(/cms\/post/, underscored)`. */
  function RenameXml(xml: string, cls: ContentClass): string {
    Gsub(Gsub(xml, "cms/posts", cls.tableized), "cms/post", cls.underscored)
  }

  /** The generic name is gone from the output whenever the underscored name
      cannot recreate it at a boundary; what the plural replacement is does
      not matter, since the second pass removes whatever it leaves. */
  lemma RenameRemovesGenericName(xml: string, cls: ContentClass)
    requires NoOverlap(cls.underscored, "cms/post")
    ensures !Occurs("cms/post", RenameXml(xml, cls))
  {
    GsubLeavesNoMatch(Gsub(xml, "cms/posts", cls.tableized), "cms/post", cls.underscored);
  }

  /** Replacements that merely do not contain the generic name are not
      enough: a class whose underscored name is "post" turns the text
      "cms/cms/post" into "cms/post". */
  lemma RenameCanRecreateGenericName(cls: ContentClass)
    requires cls.tableized == "posts" && cls.underscored == "post"
    ensures !Occurs("cms/post", cls.tableized) && !Occurs("cms/post", cls.underscored)
    ensures RenameXml("cms/cms/post", cls) == "cms/post"
  {
    PluralPassKeepsText();
    SinglePassRecreatesName();
    GsubShort("posts", "cms/post", "posts");
    GsubShort("post", "cms/post", "post");
  }

  lemma PluralPassKeepsText()
    ensures Gsub("cms/cms/post", "cms/posts", "posts") == "cms/cms/post"
  {
    var s, plural := "cms/cms/post", "cms/posts";
    forall i | 0 <= i <= |s| ensures !StartsWith(s[i..], plural) {
      if i == 0 {
        assert s[0..][4] != plural[4];
      } else if i < 4 {
        assert s[i..][0] != plural[0];
      }
    }
    GsubWithoutMatch(s, plural, "posts");
  }

  lemma SinglePassRecreatesName()
    ensures Gsub("cms/cms/post", "cms/post", "post") == "cms/post"
  {
    var s := "cms/cms/post";
    var single := "cms/post";
    assert s[4..] == single;
    assert StartsWith(s[4..], single);
    assert s[4..][8..] == "";
    assert Gsub(s[4..], single, "post") == "post";
    assert s[3..][0] != single[0];
    assert Gsub(s[3..], single, "post") == "/post";
    assert s[2..][0] != single[0];
    assert Gsub(s[2..], single, "post") == "s/post";
    assert s[1..][0] != single[0];
    assert Gsub(s[1..], single, "post") == "ms/post";
    assert s[..8][4] != single[4];
    assert Gsub(s, single, "post") == "cms/post";
  }
}
