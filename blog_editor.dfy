/** The blog editor of the admin panel (app/admin/blog/page.jsx): a post form
    with a cover image, an author avatar and a gallery, written to the
    blog_posts table, and the delete sequence through the image route. */
module BlogEditor {
  import opened Text
  import opened Wrappers
  import opened Uploads
  import opened Lists
  import Slug
  import DeleteImage

  datatype BlogForm = BlogForm(
    title: string, excerpt: string, content: string, category: string, featured: bool,
    authorName: string, authorBio: string, authorAvatar: string)

  /** The empty form: category "Real Estate", not featured. */
  const InitialForm: BlogForm := BlogForm("", "", "", "Real Estate", false, "", "", "")

  /** The avatar used when neither a file nor a URL is given. */
  const PlaceholderAvatar: string := "https://via.placeholder.com/150"

  datatype Author = Author(name: string, bio: string, avatar: string)

  /** A row of blog_posts; an absent text column reads as "". */
  datatype BlogRecord = BlogRecord(
    id: int, title: string, excerpt: string, content: string, category: string, isfeatured: bool,
    coverimage: string, gallery: Option<seq<string>>, author: Option<Author>)

  /** The `coverimage` property: a value, or `undefined`, which leaves the
      column as it is on update. */
  datatype CoverField = SetCover(url: string) | KeepCover

  /** `postData`; `likes` is present only on insert. */
  datatype PostData = PostData(
    title: string, slug: string, excerpt: string, content: string, category: string, isfeatured: bool,
    coverimage: CoverField, gallery: seq<string>, author: Author, likes: Option<int>)

  datatype BlogWrite = UpdatePost(id: int, data: PostData) | InsertPost(data: PostData)

  datatype SubmitOutcome = CoverUploadFailed | AvatarUploadFailed | WriteFailed | Saved

  /** The cover image URL: "" without a file, `None` when the upload fails. */
  function CoverUrl(file: Option<LocalFile>, upload: LocalFile -> UploadResult): Option<string>
  {
    if file.None? then Some("")
    else match upload(file.value)
      case UploadFailed => None
      case Uploaded(u) => Some(u)
  }

  /** `galleryUrls`: the uploads when files are pending (nothing if
      `Promise.all` rejects), else the existing gallery when editing, else
      nothing. */
  function GalleryUrls(files: seq<LocalFile>, editId: Option<int>, existing: seq<string>, upload: LocalFile -> UploadResult): seq<string>
  {
    if |files| > 0 then
      match UploadAll(files, upload)
      case None => []
      case Some(urls) => urls
    else if editId.Some? then existing
    else []
  }

  /** `avatarUrl`: the uploaded file, else the entered URL if it is not
      blank, else the placeholder; `None` when the upload fails. */
  function AvatarUrl(avatarFile: Option<LocalFile>, entered: string, upload: LocalFile -> UploadResult): Option<string>
  {
    if avatarFile.Some? then
      match upload(avatarFile.value)
      case UploadFailed => None
      case Uploaded(u) => Some(u)
    else if Trim(entered) != "" then Some(entered)
    else Some(PlaceholderAvatar)
  }

  /** `imageUrl || (editId ? undefined : "")`. */
  function CoverFieldOf(imageUrl: string, editId: Option<int>): CoverField
  {
    if imageUrl != "" then SetCover(imageUrl)
    else if editId.Some? then KeepCover
    else SetCover("")
  }

  function BuildPostData(form: BlogForm, imageUrl: string, editId: Option<int>, gallery: seq<string>, avatar: string): PostData
  {
    PostData(
      form.title, Slug.GenerateSlug(form.title), form.excerpt, form.content, form.category, form.featured,
      CoverFieldOf(imageUrl, editId), gallery, Author(form.authorName, form.authorBio, avatar),
      if editId.Some? then None else Some(0))
  }

  /** What `handleSubmit` writes for a given editor state, or `None` when it
      returns before writing. */
  function SubmitPlan(form: BlogForm, editId: Option<int>, file: Option<LocalFile>, galleryFiles: seq<LocalFile>,
                      existing: seq<string>, avatarFile: Option<LocalFile>, upload: LocalFile -> UploadResult): Option<BlogWrite>
  {
    match CoverUrl(file, upload)
    case None => None
    case Some(imageUrl) =>
      var gallery := GalleryUrls(galleryFiles, editId, existing, upload);
      match AvatarUrl(avatarFile, form.authorAvatar, upload)
      case None => None
      case Some(avatar) =>
        var data := BuildPostData(form, imageUrl, editId, gallery, avatar);
        Some(if editId.Some? then UpdatePost(editId.value, data) else InsertPost(data))
  }

  /** Nothing is written exactly when the chosen cover image or the chosen
      avatar fails to upload; a failing gallery upload never stops the write. */
  lemma {:induction false} SubmitAbortsOnCoverOrAvatar(form: BlogForm, editId: Option<int>, file: Option<LocalFile>, galleryFiles: seq<LocalFile>,
                                    existing: seq<string>, avatarFile: Option<LocalFile>, upload: LocalFile -> UploadResult)
    ensures SubmitPlan(form, editId, file, galleryFiles, existing, avatarFile, upload).None? <==>
      (file.Some? && upload(file.value).UploadFailed?) || (avatarFile.Some? && upload(avatarFile.value).UploadFailed?)
  {
  }

  /** The written gallery: with pending files, their URLs in file order if
      every upload succeeds and nothing otherwise; without, the existing
      gallery on edit and nothing on create. */
  lemma {:induction false} SubmitGallery(form: BlogForm, editId: Option<int>, file: Option<LocalFile>, galleryFiles: seq<LocalFile>,
                      existing: seq<string>, avatarFile: Option<LocalFile>, upload: LocalFile -> UploadResult)
    requires SubmitPlan(form, editId, file, galleryFiles, existing, avatarFile, upload).Some?
    ensures var gallery := SubmitPlan(form, editId, file, galleryFiles, existing, avatarFile, upload).value.data.gallery;
      && (|galleryFiles| > 0 && (forall i :: 0 <= i < |galleryFiles| ==> upload(galleryFiles[i]).Uploaded?) ==>
            |gallery| == |galleryFiles| && forall i :: 0 <= i < |galleryFiles| ==> upload(galleryFiles[i]) == Uploaded(gallery[i]))
      && (|galleryFiles| > 0 && (exists i :: 0 <= i < |galleryFiles| && upload(galleryFiles[i]).UploadFailed?) ==> gallery == [])
      && (|galleryFiles| == 0 ==> gallery == if editId.Some? then existing else [])
  {
    UploadAllSpec(galleryFiles, upload);
  }

  /** The avatar follows the order: uploaded file, entered URL when not
      blank, placeholder; without a file it is never blank. */
  lemma {:induction false} SubmitAvatar(form: BlogForm, editId: Option<int>, file: Option<LocalFile>, galleryFiles: seq<LocalFile>,
                     existing: seq<string>, avatarFile: Option<LocalFile>, upload: LocalFile -> UploadResult)
    requires SubmitPlan(form, editId, file, galleryFiles, existing, avatarFile, upload).Some?
    ensures var avatar := SubmitPlan(form, editId, file, galleryFiles, existing, avatarFile, upload).value.data.author.avatar;
      && (avatarFile.Some? ==> upload(avatarFile.value) == Uploaded(avatar))
      && (avatarFile.None? && Trim(form.authorAvatar) != "" ==> avatar == form.authorAvatar)
      && (avatarFile.None? && Trim(form.authorAvatar) == "" ==> avatar == PlaceholderAvatar)
      && (avatarFile.None? ==> Trim(avatar) != "")
  {
    var plan := SubmitPlan(form, editId, file, galleryFiles, existing, avatarFile, upload);
    assert plan.value.data.author.avatar == AvatarUrl(avatarFile, form.authorAvatar, upload).value;
    if avatarFile.None? && Trim(form.authorAvatar) == "" {
      assert PlaceholderAvatar[0] == 'h';
      NonBlankHeadSurvivesTrim(PlaceholderAvatar);
    }
  }

  lemma {:induction false} NonBlankHeadSurvivesTrim(s: string)
    requires s != [] && !IsJsWhitespace(s[0])
    ensures Trim(s) != ""
  {
    assert TrimStart(s) == s;
  }

  /** The cover: the uploaded URL; without one, left unchanged on update and
      set to "" on insert. The slug is always regenerated from the title, in
      slug form. `likes` is set, to 0, exactly on insert. */
  lemma {:induction false} SubmitCoverSlugLikes(form: BlogForm, editId: Option<int>, file: Option<LocalFile>, galleryFiles: seq<LocalFile>,
                             existing: seq<string>, avatarFile: Option<LocalFile>, upload: LocalFile -> UploadResult)
    requires SubmitPlan(form, editId, file, galleryFiles, existing, avatarFile, upload).Some?
    ensures var w := SubmitPlan(form, editId, file, galleryFiles, existing, avatarFile, upload).value;
      && (file.Some? && upload(file.value).Uploaded? && upload(file.value).url != "" ==> w.data.coverimage == SetCover(upload(file.value).url))
      && (file.None? ==> w.data.coverimage == if editId.Some? then KeepCover else SetCover(""))
      && w.data.slug == Slug.GenerateSlug(form.title)
      && Slug.InSlugAlphabet(w.data.slug) && Slug.NoDoubleHyphen(w.data.slug) && Slug.NoEdgeHyphen(w.data.slug)
      && (w.InsertPost? <==> editId.None?)
      && (w.UpdatePost? ==> w.id == editId.value && w.data.likes == None)
      && (w.InsertPost? ==> w.data.likes == Some(0))
  {
  }

  /** The form `handleEdit(post)` fills in. */
  function EditForm(post: BlogRecord): BlogForm
  {
    var author := if post.author.Some? then post.author.value else Author("", "", "");
    BlogForm(post.title, post.excerpt, post.content, post.category, post.isfeatured, author.name, author.bio, author.avatar)
  }

  function PostId(p: BlogRecord): int { p.id }

  /** The editor's state. `loading`, `isUploading`, notifications and
      `resetKey` are left out. */
  class BlogEditor {
    var blogPosts: seq<BlogRecord>
    var deletingPostIds: seq<int>
    var editId: Option<int>
    var form: BlogForm
    var file: Option<LocalFile>
    var coverImagePreview: Option<Preview>
    var avatarFile: Option<LocalFile>
    var avatarPreview: Option<Preview>
    var galleryFiles: seq<LocalFile>
    var galleryPreviews: seq<Preview>
    var existingGallery: seq<string>

    /** The form, file and gallery state the end of `handleSubmit` leaves;
        `editId` is not part of it. */
    predicate FormIsReset()
      reads this
    {
      && form == InitialForm && file == None && coverImagePreview == None
      && avatarFile == None && avatarPreview == None
      && galleryFiles == [] && galleryPreviews == [] && existingGallery == []
    }

    constructor ()
      ensures FormIsReset() && editId == None
      ensures blogPosts == [] && deletingPostIds == []
    {
      blogPosts := [];
      deletingPostIds := [];
      editId := None;
      form := InitialForm;
      file := None;
      coverImagePreview := None;
      avatarFile := None;
      avatarPreview := None;
      galleryFiles := [];
      galleryPreviews := [];
      existingGallery := [];
    }

    /** `fetchBlogPosts`: the rows replace the list unless the read fails. */
    method LoadPosts(fetched: Option<seq<BlogRecord>>)
      modifies this
      ensures blogPosts == if fetched.Some? then fetched.value else old(blogPosts)
      ensures deletingPostIds == old(deletingPostIds) && editId == old(editId) && form == old(form)
      ensures file == old(file) && coverImagePreview == old(coverImagePreview)
      ensures avatarFile == old(avatarFile) && avatarPreview == old(avatarPreview)
      ensures galleryFiles == old(galleryFiles) && galleryPreviews == old(galleryPreviews)
      ensures existingGallery == old(existingGallery)
    {
      if fetched.Some? {
        blogPosts := fetched.value;
      }
    }

    /** `handleSubmit`, with `writeOk` the table's answer. A failed cover or
        avatar upload returns with nothing changed. Otherwise one insert or
        update is made and, whatever its result, the form, files and
        gallery are reset; `editId` is cleared only by a successful update. */
    method HandleSubmit(upload: LocalFile -> UploadResult, writeOk: bool) returns (outcome: SubmitOutcome, write: Option<BlogWrite>)
      modifies this
      ensures write == SubmitPlan(old(form), old(editId), old(file), old(galleryFiles), old(existingGallery), old(avatarFile), upload)
      ensures outcome == CoverUploadFailed <==> old(file).Some? && upload(old(file).value).UploadFailed?
      ensures outcome == AvatarUploadFailed ==> old(avatarFile).Some? && upload(old(avatarFile).value).UploadFailed?
      ensures write.None? <==> outcome == CoverUploadFailed || outcome == AvatarUploadFailed
      ensures write.None? ==> unchanged(this)
      ensures write.Some? ==> FormIsReset()
      ensures outcome == Saved <==> write.Some? && writeOk
      ensures write.Some? ==> editId == if old(editId).Some? && writeOk then None else old(editId)
      ensures blogPosts == old(blogPosts) && deletingPostIds == old(deletingPostIds)
    {
      ghost var plan := SubmitPlan(form, editId, file, galleryFiles, existingGallery, avatarFile, upload);
      var imageUrl := "";
      if file.Some? {
        match upload(file.value) {
          case UploadFailed =>
            return CoverUploadFailed, None;
          case Uploaded(u) =>
            imageUrl := u;
        }
      }
      assert CoverUrl(file, upload) == Some(imageUrl);
      var galleryUrls: seq<string> := [];
      if |galleryFiles| > 0 {
        match UploadAll(galleryFiles, upload) {
          case None =>
          case Some(urls) =>
            galleryUrls := urls;
        }
      } else if editId.Some? {
        galleryUrls := existingGallery;
      }
      var avatarUrl := "";
      if avatarFile.Some? {
        match upload(avatarFile.value) {
          case UploadFailed =>
            return AvatarUploadFailed, None;
          case Uploaded(u) =>
            avatarUrl := u;
        }
      } else if Trim(form.authorAvatar) != "" {
        avatarUrl := form.authorAvatar;
      } else {
        avatarUrl := PlaceholderAvatar;
      }
      assert GalleryUrls(galleryFiles, editId, existingGallery, upload) == galleryUrls;
      assert AvatarUrl(avatarFile, form.authorAvatar, upload) == Some(avatarUrl);
      var postData := BuildPostData(form, imageUrl, editId, galleryUrls, avatarUrl);
      if editId.Some? {
        write := Some(UpdatePost(editId.value, postData));
        if writeOk {
          editId := None;
        }
      } else {
        write := Some(InsertPost(postData));
      }
      assert write == plan;
      outcome := if writeOk then Saved else WriteFailed;
      ResetForm();
    }

    /** The reset at the end of `handleSubmit`: the form, files, previews
        and existing gallery go back to empty; `editId` and the lists stay. */
    method ResetForm()
      modifies this
      ensures FormIsReset()
      ensures editId == old(editId) && blogPosts == old(blogPosts) && deletingPostIds == old(deletingPostIds)
    {
      form := InitialForm;
      file := None;
      coverImagePreview := None;
      avatarFile := None;
      avatarPreview := None;
      galleryFiles := [];
      galleryPreviews := [];
      existingGallery := [];
    }

    /** `handleEdit(post)`: the form, previews and existing gallery are
        seeded from the row; chosen files are left as they are. */
    method HandleEdit(post: BlogRecord)
      modifies this
      ensures editId == Some(post.id) && form == EditForm(post)
      ensures coverImagePreview == Some(Remote(post.coverimage))
      ensures avatarPreview == Some(Remote(EditForm(post).authorAvatar))
      ensures existingGallery == (if post.gallery.Some? then post.gallery.value else [])
      ensures galleryPreviews == RemotePreviews(existingGallery)
      ensures file == old(file) && avatarFile == old(avatarFile) && galleryFiles == old(galleryFiles)
      ensures blogPosts == old(blogPosts) && deletingPostIds == old(deletingPostIds)
    {
      editId := Some(post.id);
      form := EditForm(post);
      coverImagePreview := Some(Remote(post.coverimage));
      avatarPreview := Some(Remote(form.authorAvatar));
      existingGallery := if post.gallery.Some? then post.gallery.value else [];
      galleryPreviews := RemotePreviews(existingGallery);
    }

    /** The Cancel Edit button: back to creating, with an empty form and
        no existing gallery; pending files and gallery previews stay. */
    method CancelEdit()
      modifies this
      ensures editId == None && form == InitialForm
      ensures coverImagePreview == None && avatarPreview == None && existingGallery == []
      ensures file == old(file) && avatarFile == old(avatarFile)
      ensures galleryFiles == old(galleryFiles) && galleryPreviews == old(galleryPreviews)
      ensures blogPosts == old(blogPosts) && deletingPostIds == old(deletingPostIds)
    {
      editId := None;
      form := InitialForm;
      coverImagePreview := None;
      avatarPreview := None;
      existingGallery := [];
    }

    /** The cover image input. */
    method SelectCover(selected: Option<LocalFile>)
      modifies this
      ensures file == selected
      ensures coverImagePreview == if selected.Some? then Some(Local(selected.value)) else None
      ensures editId == old(editId) && form == old(form) && avatarFile == old(avatarFile) && avatarPreview == old(avatarPreview)
      ensures galleryFiles == old(galleryFiles) && galleryPreviews == old(galleryPreviews) && existingGallery == old(existingGallery)
      ensures blogPosts == old(blogPosts) && deletingPostIds == old(deletingPostIds)
    {
      file := selected;
      coverImagePreview := if selected.Some? then Some(Local(selected.value)) else None;
    }

    /** The avatar input. */
    method SelectAvatar(selected: Option<LocalFile>)
      modifies this
      ensures avatarFile == selected
      ensures avatarPreview == if selected.Some? then Some(Local(selected.value)) else None
      ensures editId == old(editId) && form == old(form) && file == old(file) && coverImagePreview == old(coverImagePreview)
      ensures galleryFiles == old(galleryFiles) && galleryPreviews == old(galleryPreviews) && existingGallery == old(existingGallery)
      ensures blogPosts == old(blogPosts) && deletingPostIds == old(deletingPostIds)
    {
      avatarFile := selected;
      avatarPreview := if selected.Some? then Some(Local(selected.value)) else None;
    }

    /** The gallery input: the selection replaces both the pending files
        and the previews. */
    method SelectGalleryFiles(files: seq<LocalFile>)
      modifies this
      ensures galleryFiles == files && galleryPreviews == ObjectPreviews(files)
      ensures editId == old(editId) && form == old(form) && file == old(file) && coverImagePreview == old(coverImagePreview)
      ensures avatarFile == old(avatarFile) && avatarPreview == old(avatarPreview) && existingGallery == old(existingGallery)
      ensures blogPosts == old(blogPosts) && deletingPostIds == old(deletingPostIds)
    {
      galleryFiles := files;
      galleryPreviews := ObjectPreviews(files);
    }

    /** `deleteBlogPost(post)` up to the image request: after confirmation
        the id is marked and the request body `{ image: post.coverimage }`
        is sent. */
    method BeginDelete(post: BlogRecord, confirmed: bool) returns (request: Option<DeleteImage.DeleteRequest>)
      modifies this
      ensures request == if confirmed then Some(DeleteImage.BlogDeleteRequest(post.coverimage)) else None
      ensures deletingPostIds == if confirmed then old(deletingPostIds) + [post.id] else old(deletingPostIds)
      ensures blogPosts == old(blogPosts) && editId == old(editId) && form == old(form)
      ensures file == old(file) && coverImagePreview == old(coverImagePreview)
      ensures avatarFile == old(avatarFile) && avatarPreview == old(avatarPreview)
      ensures galleryFiles == old(galleryFiles) && galleryPreviews == old(galleryPreviews) && existingGallery == old(existingGallery)
    {
      if confirmed {
        deletingPostIds := deletingPostIds + [post.id];
        request := Some(DeleteImage.BlogDeleteRequest(post.coverimage));
      } else {
        request := None;
      }
    }

    /** The rest of `deleteBlogPost(post)`, given whether the image request
        answered ok and whether the row delete succeeded: a failed image
        request returns before the row delete; the post leaves the list only
        when the row is deleted; the id leaves the in-flight list on every
        path. */
    method CompleteDelete(post: BlogRecord, imageOk: bool, rowOk: bool) returns (rowDeleteSent: bool)
      modifies this
      ensures rowDeleteSent == imageOk
      ensures deletingPostIds == Without(old(deletingPostIds), post.id)
      ensures blogPosts == if imageOk && rowOk then WithoutId(old(blogPosts), PostId, post.id) else old(blogPosts)
      ensures editId == old(editId) && form == old(form)
      ensures file == old(file) && coverImagePreview == old(coverImagePreview)
      ensures avatarFile == old(avatarFile) && avatarPreview == old(avatarPreview)
      ensures galleryFiles == old(galleryFiles) && galleryPreviews == old(galleryPreviews) && existingGallery == old(existingGallery)
    {
      if !imageOk {
        deletingPostIds := Without(deletingPostIds, post.id);
        return false;
      }
      rowDeleteSent := true;
      if rowOk {
        blogPosts := WithoutId(blogPosts, PostId, post.id);
      }
      deletingPostIds := Without(deletingPostIds, post.id);
    }
  }
}
