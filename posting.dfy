/** The create action of the content controller, and `get_content`, over an
    in-memory store of content records and posts.

    Creating is a two-stage write: the content record is saved first, then a
    post that refers to it. When the post cannot be saved the content record
    is destroyed again, so that no content outlives a failed post. */
module Posting {

  import opened CmsTypes

  datatype CreateResponse =
      /** html: `flash[:valid]` names the created class; redirect to the post. */
    | Created(post: nat, createdClass: string)
      /** html: the new-post form again. */
    | NewForm
      /** atom: 201 with the post's Location and an atom entry. */
    | AtomCreated(post: nat)
      /** atom: 400 with the content record's validation errors. */
    | AtomContentErrors(errors: seq<string>)
      /** atom: 400 with the post's validation errors. */
    | AtomPostErrors(errors: seq<string>)
      /** 406: the responder has no branch for the requested format. */
    | NotAcceptable

  /** The responder of the create action declares html, then atom; a request
      for any format takes html. */
  datatype Branch = HtmlBranch | AtomBranch | NoBranch

  function BranchFor(req: Requested): (b: Branch)
    ensures b == HtmlBranch <==> req == AnyFormat || req == Format("html")
    ensures b == AtomBranch <==> req == Format("atom")
  {
    match req
    case AnyFormat => HtmlBranch
    case Format(f) => if f == "html" then HtmlBranch else if f == "atom" then AtomBranch else NoBranch
  }

  /** The response when the content record does not validate. */
  function OnContentErrors(b: Branch, errors: seq<string>): CreateResponse {
    match b
    case HtmlBranch => NewForm
    case AtomBranch => AtomContentErrors(errors)
    case NoBranch => NotAcceptable
  }

  /** The response when the content record saved but the post did not. */
  function OnPostErrors(b: Branch, errors: seq<string>): CreateResponse {
    if b == HtmlBranch then NewForm else AtomPostErrors(errors)
  }

  /** The response when both records saved. */
  function OnSuccess(b: Branch, pid: nat, cls: ContentClass): CreateResponse {
    if b == HtmlBranch then Created(pid, cls.name) else AtomCreated(pid)
  }

  /** The stored post: only the html branch assigns the categories. */
  function Attached(b: Branch, p: Post, categoryIds: seq<nat>): Post {
    if b == HtmlBranch then p.(categoryIds := categoryIds) else p
  }

  /** The post the action builds for a saved content record. */
  function NewPost(cls: ContentClass, author: nat, container: Option<ContainerRef>,
                   contentId: nat, publicRead: bool, now: int): Post {
    Post(author, container, contentId, cls.baseName, publicRead, now, [])
  }

  /** In a store whose posts all refer to stored records, no post refers to
      an id that is not stored. */
  lemma NoPostRefersTo(posts: map<nat, Post>, contents: map<nat, Content>, cid: nat)
    requires cid !in contents
    requires forall pid :: pid in posts ==> posts[pid].contentId in contents
    ensures forall pid :: pid in posts ==> posts[pid].contentId != cid
  {
  }

  /** Destroying a record just stored under a fresh id restores the table. */
  lemma RemoveFresh(m: map<nat, Content>, k: nat, v: Content)
    requires k !in m
    ensures m[k := v] - {k} == m
  {
  }

  ghost predicate RefersTo(posts: map<nat, Post>, id: nat) {
    exists pid :: pid in posts && posts[pid].contentId == id
  }

  /** Storing one more post keeps every existing reference. */
  lemma AddPostKeepsReferences(posts: map<nat, Post>, pid: nat, p: Post)
    requires pid !in posts
    ensures RefersTo(posts[pid := p], p.contentId)
    ensures forall id :: RefersTo(posts, id) ==> RefersTo(posts[pid := p], id)
  {
    assert posts[pid := p][pid].contentId == p.contentId;
    forall id | RefersTo(posts, id) ensures RefersTo(posts[pid := p], id) {
      var q :| q in posts && posts[q].contentId == id;
      assert posts[pid := p][q] == posts[q];
    }
  }

  /** Re-assigning a post's categories keeps what it refers to. */
  lemma RecategorizeKeepsReferences(posts: map<nat, Post>, pid: nat, ids: seq<nat>)
    requires pid in posts
    ensures forall id :: RefersTo(posts, id) ==> RefersTo(posts[pid := posts[pid].(categoryIds := ids)], id)
  {
    var posts' := posts[pid := posts[pid].(categoryIds := ids)];
    forall id | RefersTo(posts, id) ensures RefersTo(posts', id) {
      var q :| q in posts && posts[q].contentId == id;
      assert posts'[q].contentId == id;
    }
  }

  class ContentStore {
    var contents: map<nat, Content>
    var posts: map<nat, Post>
    var nextContent: nat
    var nextPost: nat

    ghost predicate Referenced(id: nat)
      reads this
    {
      RefersTo(posts, id)
    }

    /** Every stored content record belongs to some stored post. */
    ghost predicate NoOrphans()
      reads this
    {
      forall id :: id in contents ==> Referenced(id)
    }

    ghost predicate Valid()
      reads this
    {
      && (forall id :: id in contents ==> id < nextContent)
      && (forall pid :: pid in posts ==> pid < nextPost && posts[pid].contentId in contents)
      && NoOrphans()
    }

    constructor ()
      ensures Valid()
      ensures contents == map[] && posts == map[] && nextContent == 1 && nextPost == 1
    {
      contents, posts := map[], map[];
      nextContent, nextPost := 1, 1;
    }

    /** `get_content`: `find` by id, which raises RecordNotFound (None here)
        when no record has that id. */
    function GetContent(id: nat): (r: Option<Content>)
      reads this
      ensures r.Some? <==> id in contents
      ensures r.Some? ==> r.value == contents[id]
    {
      if id in contents then Some(contents[id]) else None
    }

    /** `create` of the content record: saved under a fresh id when its
        validation reports no errors, left unsaved otherwise. */
    method SaveContent(c: Content, errors: seq<string>) returns (id: Option<nat>)
      modifies this
      ensures errors == [] ==>
        id == Some(old(nextContent)) && contents == old(contents)[old(nextContent) := c] &&
        nextContent == old(nextContent) + 1
      ensures errors != [] ==> id == None && contents == old(contents) && nextContent == old(nextContent)
      ensures posts == old(posts) && nextPost == old(nextPost)
    {
      if errors == [] {
        id := Some(nextContent);
        contents := contents[nextContent := c];
        nextContent := nextContent + 1;
      } else {
        id := None;
      }
    }

    /** `save` of the post: stored under a fresh id when valid. */
    method SavePost(p: Post, errors: seq<string>) returns (id: Option<nat>)
      modifies this
      ensures errors == [] ==>
        id == Some(old(nextPost)) && posts == old(posts)[old(nextPost) := p] &&
        nextPost == old(nextPost) + 1
      ensures errors != [] ==> id == None && posts == old(posts) && nextPost == old(nextPost)
      ensures contents == old(contents) && nextContent == old(nextContent)
    {
      if errors == [] {
        id := Some(nextPost);
        posts := posts[nextPost := p];
        nextPost := nextPost + 1;
      } else {
        id := None;
      }
    }

    method DestroyContent(id: nat)
      modifies this
      ensures contents == old(contents) - {id}
      ensures posts == old(posts) && nextContent == old(nextContent) && nextPost == old(nextPost)
    {
      contents := contents - {id};
    }

    /** `post.category_ids = ids` on a saved post. */
    method AssignCategories(pid: nat, ids: seq<nat>)
      requires pid in posts
      modifies this
      ensures posts == old(posts)[pid := old(posts)[pid].(categoryIds := ids)]
      ensures contents == old(contents) && nextContent == old(nextContent) && nextPost == old(nextPost)
    {
      posts := posts[pid := posts[pid].(categoryIds := ids)];
    }

    /** The create action with the request format's 406 closing the same gap
        as a failed post: the content record is destroyed in every branch
        that does not store a post. See CreateAsWritten for the source. */
    method Create(req: Requested, cls: ContentClass, author: nat, container: Option<ContainerRef>,
                  content: Content, contentErrors: seq<string>,
                  publicRead: bool, postErrors: seq<string>, categoryIds: seq<nat>, now: int)
      returns (resp: CreateResponse)
      requires Valid()
      modifies this
      ensures Valid()
      ensures contentErrors != [] ==>
        contents == old(contents) && posts == old(posts) && resp == OnContentErrors(BranchFor(req), contentErrors)
      ensures contentErrors == [] && BranchFor(req) == NoBranch ==>
        contents == old(contents) && posts == old(posts) && resp == NotAcceptable
      ensures contentErrors == [] && BranchFor(req) != NoBranch && postErrors != [] ==>
        contents == old(contents) && posts == old(posts) && resp == OnPostErrors(BranchFor(req), postErrors)
      ensures contentErrors == [] && BranchFor(req) != NoBranch && postErrors == [] ==>
        contents == old(contents)[old(nextContent) := content] &&
        posts == old(posts)[old(nextPost) := Attached(BranchFor(req),
          NewPost(cls, author, container, old(nextContent), publicRead, now), categoryIds)] &&
        resp == OnSuccess(BranchFor(req), old(nextPost), cls)
      ensures nextContent == old(nextContent) + (if contentErrors == [] then 1 else 0)
      ensures nextPost == old(nextPost) +
        (if contentErrors == [] && BranchFor(req) != NoBranch && postErrors == [] then 1 else 0)
    {
      var branch := BranchFor(req);
      NoPostRefersTo(posts, contents, nextContent);
      var cid := SaveContent(content, contentErrors);
      if cid.None? {
        resp := OnContentErrors(branch, contentErrors);
        return;
      }
      if branch == NoBranch {
        RemoveFresh(old(contents), cid.value, content);
        DestroyContent(cid.value);
        resp := NotAcceptable;
        return;
      }
      var post := NewPost(cls, author, container, cid.value, publicRead, now);
      assert nextPost !in posts;
      AddPostKeepsReferences(posts, nextPost, post);
      var pid := SavePost(post, postErrors);
      if pid.None? {
        RemoveFresh(old(contents), cid.value, content);
        DestroyContent(cid.value);
        resp := OnPostErrors(branch, postErrors);
        return;
      }
      if branch == HtmlBranch {
        RecategorizeKeepsReferences(posts, pid.value, categoryIds);
        AssignCategories(pid.value, categoryIds);
        resp := Created(pid.value, cls.name);
      } else {
        resp := AtomCreated(pid.value);
      }
    }

    /** The create action as the source has it. The content record is saved
        before the responder picks a branch, and only the html and atom
        branches destroy it on failure, so a request in any other format
        stores a content record that no post refers to. */
    method CreateAsWritten(req: Requested, cls: ContentClass, author: nat, container: Option<ContainerRef>,
                           content: Content, contentErrors: seq<string>,
                           publicRead: bool, postErrors: seq<string>, categoryIds: seq<nat>, now: int)
      returns (resp: CreateResponse)
      requires Valid()
      modifies this
      ensures contentErrors != [] || BranchFor(req) != NoBranch ==> Valid()
      ensures contentErrors != [] ==>
        contents == old(contents) && posts == old(posts) && resp == OnContentErrors(BranchFor(req), contentErrors)
      ensures contentErrors == [] && BranchFor(req) == NoBranch ==>
        contents == old(contents)[old(nextContent) := content] && posts == old(posts) && resp == NotAcceptable
      ensures contentErrors == [] && BranchFor(req) == NoBranch ==>
        old(nextContent) in contents && !Referenced(old(nextContent)) && !NoOrphans()
      ensures contentErrors == [] && BranchFor(req) != NoBranch && postErrors != [] ==>
        contents == old(contents) && posts == old(posts) && resp == OnPostErrors(BranchFor(req), postErrors)
      ensures contentErrors == [] && BranchFor(req) != NoBranch && postErrors == [] ==>
        contents == old(contents)[old(nextContent) := content] &&
        posts == old(posts)[old(nextPost) := Attached(BranchFor(req),
          NewPost(cls, author, container, old(nextContent), publicRead, now), categoryIds)] &&
        resp == OnSuccess(BranchFor(req), old(nextPost), cls)
      ensures nextContent == old(nextContent) + (if contentErrors == [] then 1 else 0)
      ensures nextPost == old(nextPost) +
        (if contentErrors == [] && BranchFor(req) != NoBranch && postErrors == [] then 1 else 0)
    {
      var branch := BranchFor(req);
      NoPostRefersTo(posts, contents, nextContent);
      var cid := SaveContent(content, contentErrors);
      if branch == NoBranch {
        resp := NotAcceptable;
        return;
      }
      if cid.None? {
        resp := OnContentErrors(branch, contentErrors);
        return;
      }
      var post := NewPost(cls, author, container, cid.value, publicRead, now);
      assert nextPost !in posts;
      AddPostKeepsReferences(posts, nextPost, post);
      var pid := SavePost(post, postErrors);
      if pid.None? {
        RemoveFresh(old(contents), cid.value, content);
        DestroyContent(cid.value);
        resp := OnPostErrors(branch, postErrors);
        return;
      }
      if branch == HtmlBranch {
        RecategorizeKeepsReferences(posts, pid.value, categoryIds);
        AssignCategories(pid.value, categoryIds);
        resp := Created(pid.value, cls.name);
      } else {
        resp := AtomCreated(pid.value);
      }
    }
  }

  /** A request for xml to a fresh store leaves one content record and no
      post: the orphan the as-written action produces. */
  method OrphanScenario(cls: ContentClass, content: Content)
  {
    var store := new ContentStore();
    var resp := store.CreateAsWritten(Format("xml"), cls, 1, None, content, [], true, [], [], 0);
    assert resp == NotAcceptable;
    assert store.contents == map[1 := content] && store.posts == map[];
    assert !store.NoOrphans();
  }
}
