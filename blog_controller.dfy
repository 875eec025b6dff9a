/** The blog request handlers over the blog collection: create with
    validation and defaults, the public and personal listings, reading by
    slug (unpublished blogs disguised as missing), and reading for edit,
    updating and deleting, which are for the author or an administrator. */
module BlogController {
  import opened Wrappers
  import opened Text
  import opened JsonValue
  import opened Identity
  import opened BlogModel
  import opened Listing
  import opened Sequences

  type BlogId = nat

  /** The fields of a request body; `None` is a field left out. */
  datatype BlogBody = BlogBody(title: Option<string>, content: Option<Json>,
                               tags: Option<seq<string>>, published: Option<bool>)

  /** A blog in a listing: every field but the content. */
  datatype BlogSummary = BlogSummary(id: BlogId, author: UserId, title: string, slug: string,
                                     tags: seq<string>, published: bool, createdAt: int)

  /** A JSON reply body. */
  datatype Payload = BlogJson(id: BlogId, blog: Blog) | ListJson(items: seq<BlogSummary>) | Message(text: string)

  /** A status code and its body. */
  datatype Reply = Reply(status: int, body: Payload)

  const BlogNotFound := "Blog not found"
  const TitleAndContentRequired := "Title and content are required"
  const NotAuthorizedToEdit := "Not authorized to edit this blog"
  const NotAuthorizedToUpdate := "Not authorized to update this blog"
  const NotAuthorizedToDelete := "Not authorized to delete this blog"
  const BlogDeleted := "Blog deleted"
  /** The error the unique slug index raises on a second blog with the same slug. */
  const DuplicateSlugError := "E11000 duplicate key error (slug)"

  /** The message of the schema's validation error for the title. */
  function TitleValidationMessage(message: string): string {
    "Blog validation failed: title: " + message
  }

  /** A string field that is present and non-empty. */
  predicate TruthyText(v: Option<string>) {
    v.Some? && v.value != ""
  }

  /** A JSON field that is present and truthy. */
  predicate TruthyJson(v: Option<Json>) {
    v.Some? && Truthy(v.value)
  }

  /** `!title || !content` rejects the request before anything is created. */
  predicate HasTitleAndContent(body: BlogBody) {
    TruthyText(body.title) && TruthyJson(body.content)
  }

  /** Who may see a blog: anyone when it is published, otherwise only a
      signed-in author or administrator. */
  predicate CanView(b: Blog, viewer: Option<User>) {
    b.published || (viewer.Some? && OwnerOrAdmin(viewer.value, b.author))
  }

  function Summarize(id: BlogId, b: Blog): BlogSummary {
    BlogSummary(id, b.author, b.title, b.slug, b.tags, b.published, b.createdAt)
  }

  function SummaryId(b: BlogSummary): BlogId {
    b.id
  }

  function CreatedAt(b: Blog): int {
    b.createdAt
  }

  /** The blog `createBlog` asks the schema to save: the requester as author,
      tags defaulting to none and `published` to false. */
  function NewBlog(author: UserId, body: BlogBody, now: nat): Blog
    requires HasTitleAndContent(body)
  {
    Blog(author, Trim(body.title.value), Slug(Trim(body.title.value), now), body.content.value,
         NormalizeTags(body.tags.GetOr([])), body.published == Some(true), now)
  }

  /** The assignments `updateBlog` makes, through the setters: title and
      content are replaced only by truthy values, tags and `published`
      whenever they are present. */
  function Assigned(b: Blog, body: BlogBody): Blog {
    b.(title := if TruthyText(body.title) then Trim(body.title.value) else b.title,
       content := if TruthyJson(body.content) then body.content.value else b.content,
       tags := if body.tags.Some? then NormalizeTags(body.tags.value) else b.tags,
       published := if body.published.Some? then body.published.value else b.published)
  }

  /** The blog `updateBlog` saves: the assignments, then the hook, which
      gives a fresh slug exactly when the stored title changed. */
  function Merged(b: Blog, body: BlogBody, now: nat): Blog {
    var a := Assigned(b, body);
    Prepared(a, a.title != b.title, now)
  }

  /** The merge field by field: falsy title and content keep the stored ones,
      an explicitly empty tag list or `false` does replace, the author and
      creation time never change, and the slug changes only with the title. */
  lemma MergeFields(b: Blog, body: BlogBody, now: nat)
    ensures var m := Merged(b, body, now);
            && m.author == b.author && m.createdAt == b.createdAt
            && (!TruthyText(body.title) ==> m.title == b.title && m.slug == b.slug)
            && (TruthyText(body.title) ==> m.title == Trim(body.title.value))
            && (m.title == b.title ==> m.slug == b.slug)
            && (m.title != b.title ==> m.slug == Slug(m.title, now))
            && (m.content == if TruthyJson(body.content) then body.content.value else b.content)
            && (body.tags == Some([]) ==> m.tags == [])
            && (body.tags.None? ==> m.tags == b.tags)
            && (body.published == Some(false) ==> !m.published)
            && (body.published.None? ==> m.published == b.published)
  {
  }

  /** An empty body changes nothing. */
  lemma EmptyUpdateIsIdentity(b: Blog, now: nat)
    ensures Merged(b, BlogBody(None, None, None, None), now) == b
  {
  }

  /** The blog collection. */
  class BlogStore {
    var blogs: map<BlogId, Blog>
    var nextId: BlogId

    /** Ids are below the next fresh id, every blog is what the schema lets
        through, and the unique index keeps slugs distinct. */
    ghost predicate Valid()
      reads this
    {
      && (forall id :: id in blogs ==> id < nextId && WellFormed(blogs[id]))
      && (forall a, b :: a in blogs && b in blogs && blogs[a].slug == blogs[b].slug ==> a == b)
    }

    constructor()
      ensures Valid() && blogs == map[]
    {
      blogs := map[];
      nextId := 0;
    }

    /** `Blog.findOne({slug})`. */
    method FindBySlug(slug: string) returns (found: Option<BlogId>)
      ensures found.Some? ==> found.value in blogs && blogs[found.value].slug == slug
      ensures found.None? ==> forall id :: id in blogs ==> blogs[id].slug != slug
    {
      var pending := blogs.Keys;
      while pending != {}
        invariant pending <= blogs.Keys
        invariant forall id :: id in blogs && id !in pending ==> blogs[id].slug != slug
        decreases |pending|
      {
        var id :| id in pending;
        if blogs[id].slug == slug {
          return Some(id);
        }
        pending := pending - {id};
      }
      return None;
    }

    /** Writes a validated blog under `id`, unless the unique slug index
        already holds its slug for another blog. */
    method Put(id: BlogId, b: Blog) returns (r: Reply)
      requires Valid() && id <= nextId && WellFormed(b)
      modifies this
      ensures Valid()
      ensures SlugTakenByOther(old(blogs), b.slug, id) ==>
                r == Reply(500, Message(DuplicateSlugError)) && blogs == old(blogs) && nextId == old(nextId)
      ensures !SlugTakenByOther(old(blogs), b.slug, id) ==>
                && r == Reply(200, BlogJson(id, b)) && blogs == old(blogs)[id := b]
                && nextId == (if id == old(nextId) then id + 1 else old(nextId))
    {
      var holder := FindBySlug(b.slug);
      if holder.Some? && holder.value != id {
        return Reply(500, Message(DuplicateSlugError));
      }
      assert !SlugTakenByOther(blogs, b.slug, id);
      blogs := blogs[id := b];
      if id == nextId {
        nextId := nextId + 1;
      }
      r := Reply(200, BlogJson(id, b));
    }

    /** `doc.save()`: validation first (a title error stores nothing), then
        the hook, then the write. */
    method Save(doc: BlogDocument, id: BlogId, now: nat) returns (r: Reply)
      requires Valid() && id <= nextId
      requires Trim(doc.title) == doc.title
      requires forall i :: 0 <= i < |doc.tags| ==> TagNormalized(doc.tags[i])
      modifies this, doc
      ensures Valid()
      ensures TitleError(old(doc.title)).Some? ==>
                r == Reply(500, Message(TitleValidationMessage(TitleError(old(doc.title)).value)))
                && blogs == old(blogs) && nextId == old(nextId)
      ensures TitleError(old(doc.title)).None? ==>
                var saved := Prepared(old(doc.Snapshot()), old(doc.titleModified), now);
                && (SlugTakenByOther(old(blogs), saved.slug, id) ==>
                      r == Reply(500, Message(DuplicateSlugError)) && blogs == old(blogs) && nextId == old(nextId))
                && (!SlugTakenByOther(old(blogs), saved.slug, id) ==>
                      && r == Reply(200, BlogJson(id, saved)) && blogs == old(blogs)[id := saved]
                      && nextId == (if id == old(nextId) then id + 1 else old(nextId)))
    {
      var err := TitleError(doc.title);
      if err.Some? {
        return Reply(500, Message(TitleValidationMessage(err.value)));
      }
      doc.PreSave(now);
      var saved := doc.Snapshot();
      r := Put(id, saved);
    }

    /** `createBlog`: 400 without a truthy title and content; otherwise the
        new blog is validated, given its slug and stored with status 201. */
    method CreateBlog(user: User, body: BlogBody, now: nat) returns (r: Reply)
      requires Valid()
      modifies this
      ensures Valid()
      ensures !HasTitleAndContent(body) ==>
                r == Reply(400, Message(TitleAndContentRequired)) && blogs == old(blogs)
      ensures HasTitleAndContent(body) ==>
                var b := NewBlog(user.id, body, now);
                && (TitleError(b.title).Some? ==>
                      r == Reply(500, Message(TitleValidationMessage(TitleError(b.title).value))) && blogs == old(blogs))
                && (TitleError(b.title).None? && SlugTakenByOther(old(blogs), b.slug, old(nextId)) ==>
                      r == Reply(500, Message(DuplicateSlugError)) && blogs == old(blogs))
                && (TitleError(b.title).None? && !SlugTakenByOther(old(blogs), b.slug, old(nextId)) ==>
                      r == Reply(201, BlogJson(old(nextId), b)) && blogs == old(blogs)[old(nextId) := b])
    {
      if !HasTitleAndContent(body) {
        return Reply(400, Message(TitleAndContentRequired));
      }
      var doc := new BlogDocument.Create(user.id, body.title.value, body.content.value,
                                         body.tags.GetOr([]), body.published == Some(true), now);
      TrimIdempotent(body.title.value);
      NormalizedTagsAreNormal(body.tags.GetOr([]));
      assert nextId !in blogs;
      r := Save(doc, nextId, now);
      if r.status == 200 {
        r := r.(status := 201);
      }
    }

    /** `getBlogs`: the published blogs, newest first, without content. */
    method GetBlogs() returns (r: Reply)
      ensures r.status == 200 && r.body.ListJson?
      ensures IsListing(blogs, IsPublished, CreatedAt, Map(r.body.items, SummaryId))
      ensures forall i :: 0 <= i < |r.body.items| ==>
                r.body.items[i] == Summarize(r.body.items[i].id, blogs[r.body.items[i].id])
    {
      var ids := SelectNewestFirst(blogs, IsPublished, CreatedAt);
      r := Reply(200, ListJson(Summaries(blogs, ids)));
    }

    /** `getMyBlogs`: the requester's own blogs, newest first, without content. */
    method GetMyBlogs(user: User) returns (r: Reply)
      ensures r.status == 200 && r.body.ListJson?
      ensures IsListing(blogs, (b: Blog) => b.author == user.id, CreatedAt, Map(r.body.items, SummaryId))
      ensures forall i :: 0 <= i < |r.body.items| ==>
                r.body.items[i] == Summarize(r.body.items[i].id, blogs[r.body.items[i].id])
    {
      var ids := SelectNewestFirst(blogs, (b: Blog) => b.author == user.id, CreatedAt);
      r := Reply(200, ListJson(Summaries(blogs, ids)));
    }

    /** `getBlogBySlug`: a visible blog is returned; a missing one and one the
        viewer may not see both give the same 404, never a 403. */
    method GetBlogBySlug(slug: string, viewer: Option<User>) returns (r: Reply)
      requires Valid()
      ensures r.status == 200 || r == Reply(404, Message(BlogNotFound))
      ensures r.status == 200 <==> exists id :: id in blogs && blogs[id].slug == slug && CanView(blogs[id], viewer)
      ensures r.status == 200 ==> r.body.BlogJson? && r.body.id in blogs && r.body.blog == blogs[r.body.id]
                                  && r.body.blog.slug == slug
    {
      var found := FindBySlug(slug);
      if found.None? || !CanView(blogs[found.value], viewer) {
        return Reply(404, Message(BlogNotFound));
      }
      r := Reply(200, BlogJson(found.value, blogs[found.value]));
    }

    /** `getBlogById`: 404 when missing, 403 unless author or administrator. */
    method GetBlogById(user: User, id: BlogId) returns (r: Reply)
      ensures id !in blogs ==> r == Reply(404, Message(BlogNotFound))
      ensures id in blogs && !OwnerOrAdmin(user, blogs[id].author) ==> r == Reply(403, Message(NotAuthorizedToEdit))
      ensures id in blogs && OwnerOrAdmin(user, blogs[id].author) ==> r == Reply(200, BlogJson(id, blogs[id]))
    {
      if id !in blogs {
        return Reply(404, Message(BlogNotFound));
      }
      if !OwnerOrAdmin(user, blogs[id].author) {
        return Reply(403, Message(NotAuthorizedToEdit));
      }
      r := Reply(200, BlogJson(id, blogs[id]));
    }

    /** `updateBlog`: 404 or 403 without touching the store; otherwise the
        loaded document is assigned field by field, validated, given a new
        slug if its title changed, and saved. */
    method UpdateBlog(user: User, id: BlogId, body: BlogBody, now: nat) returns (r: Reply)
      requires Valid()
      modifies this
      ensures Valid()
      ensures id !in old(blogs) ==> r == Reply(404, Message(BlogNotFound)) && blogs == old(blogs)
      ensures id in old(blogs) && !OwnerOrAdmin(user, old(blogs)[id].author) ==>
                r == Reply(403, Message(NotAuthorizedToUpdate)) && blogs == old(blogs)
      ensures id in old(blogs) && OwnerOrAdmin(user, old(blogs)[id].author) ==>
                var m := Merged(old(blogs)[id], body, now);
                && (TitleError(m.title).Some? ==>
                      r == Reply(500, Message(TitleValidationMessage(TitleError(m.title).value))) && blogs == old(blogs))
                && (TitleError(m.title).None? && SlugTakenByOther(old(blogs), m.slug, id) ==>
                      r == Reply(500, Message(DuplicateSlugError)) && blogs == old(blogs))
                && (TitleError(m.title).None? && !SlugTakenByOther(old(blogs), m.slug, id) ==>
                      r == Reply(200, BlogJson(id, m)) && blogs == old(blogs)[id := m])
    {
      if id !in blogs {
        return Reply(404, Message(BlogNotFound));
      }
      var stored := blogs[id];
      if !OwnerOrAdmin(user, stored.author) {
        return Reply(403, Message(NotAuthorizedToUpdate));
      }
      var doc := new BlogDocument.Load(stored);
      Assign(doc, body);
      r := Save(doc, id, now);
    }

    /** The four assignments of `updateBlog` on a freshly loaded document. */
    static method Assign(doc: BlogDocument, body: BlogBody)
      requires !doc.titleModified && Trim(doc.title) == doc.title
      requires forall i :: 0 <= i < |doc.tags| ==> TagNormalized(doc.tags[i])
      modifies doc
      ensures doc.Snapshot() == Assigned(old(doc.Snapshot()), body)
      ensures doc.titleModified == (doc.title != old(doc.title))
      ensures Trim(doc.title) == doc.title
      ensures forall i :: 0 <= i < |doc.tags| ==> TagNormalized(doc.tags[i])
    {
      if TruthyText(body.title) {
        doc.SetTitle(body.title.value);
        TrimIdempotent(body.title.value);
      } else {
        doc.SetTitle(doc.title);
      }
      if TruthyJson(body.content) {
        doc.SetContent(body.content.value);
      }
      if body.tags.Some? {
        doc.SetTags(body.tags.value);
        NormalizedTagsAreNormal(body.tags.value);
      }
      if body.published.Some? {
        doc.SetPublished(body.published.value);
      }
    }

    /** `deleteBlog`: the blog is removed only after the author-or-admin check. */
    method DeleteBlog(user: User, id: BlogId) returns (r: Reply)
      requires Valid()
      modifies this
      ensures Valid()
      ensures id !in old(blogs) ==> r == Reply(404, Message(BlogNotFound)) && blogs == old(blogs)
      ensures id in old(blogs) && !OwnerOrAdmin(user, old(blogs)[id].author) ==>
                r == Reply(403, Message(NotAuthorizedToDelete)) && blogs == old(blogs)
      ensures id in old(blogs) && OwnerOrAdmin(user, old(blogs)[id].author) ==>
                r == Reply(200, Message(BlogDeleted)) && blogs == old(blogs) - {id}
    {
      if id !in blogs {
        return Reply(404, Message(BlogNotFound));
      }
      if !OwnerOrAdmin(user, blogs[id].author) {
        return Reply(403, Message(NotAuthorizedToDelete));
      }
      blogs := blogs - {id};
      r := Reply(200, Message(BlogDeleted));
    }
  }

  /** The listing's rows: each blog without its content. */
  function Summaries(blogs: map<BlogId, Blog>, ids: seq<BlogId>): (items: seq<BlogSummary>)
    requires forall i :: 0 <= i < |ids| ==> ids[i] in blogs
    ensures Map(items, SummaryId) == ids
    ensures forall i :: 0 <= i < |items| ==> items[i] == Summarize(ids[i], blogs[ids[i]])
  {
    seq(|ids|, i requires 0 <= i < |ids| => Summarize(ids[i], blogs[ids[i]]))
  }

  /** The blog the hook leaves: a fresh slug when the title was modified. */
  function Prepared(b: Blog, titleModified: bool, now: nat): Blog {
    if titleModified then b.(slug := Slug(b.title, now)) else b
  }

  predicate IsPublished(b: Blog) {
    b.published
  }

  /** Another blog than `id` already holds `slug`. */
  predicate SlugTakenByOther(blogs: map<BlogId, Blog>, slug: string, id: BlogId) {
    exists other :: other in blogs && other != id && blogs[other].slug == slug
  }

  /** The visibility rule seen from the outside: an unpublished blog behaves
      for a stranger or an anonymous visitor exactly like a missing one, and
      its author and administrators see it. */
  lemma UnpublishedVisibility(b: Blog, viewer: Option<User>)
    requires !b.published
    ensures CanView(b, viewer) <==> viewer.Some? && (viewer.value.id == b.author || viewer.value.role == "admin")
    ensures CanView(b, None) == false
  {
  }
}
