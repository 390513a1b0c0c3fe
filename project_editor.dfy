/** The projects admin page (app/admin/projects/page.js): projects of one
    service grouped by category, a create form whose gallery uploads skip
    failures, an edit form seeded from a chosen project, and the delete
    sequence through the image route. */
module ProjectEditor {
  import opened Wrappers
  import opened Uploads
  import opened Lists
  import DeleteImage

  /** The text fields of both the create form and the edit form. */
  datatype ProjectForm = ProjectForm(
    title: string, description: string, category: string, overview: string, details: string,
    heroImage: string, location: string, yearCompleted: string, projectType: string, keyFeatures: string)

  /** The empty form; a new project is "current" by default. */
  const InitialForm: ProjectForm := ProjectForm("", "", "current", "", "", "", "", "", "", "")

  /** The service whose projects the page opens on. */
  const DefaultService: string := "real-estate"

  /** A row of the projects table. Its text columns are kept as a form; an
      absent column reads as "". An absent `image` is "". */
  datatype ProjectRecord = ProjectRecord(
    id: int, service: string, columns: ProjectForm, image: string, gallery: Option<seq<string>>)

  function ProjectId(p: ProjectRecord): int { p.id }

  /** `newProject`, the row `handleSubmit` inserts. */
  datatype NewProject = NewProject(service: string, form: ProjectForm, image: string, gallery: seq<string>)

  /** `updatedProject` and the id it is written to. The image is `null`
      (`None`) or whatever the main preview holds; gallery entries may be
      hosted URLs or object URLs. */
  datatype ProjectUpdate = ProjectUpdate(id: int, form: ProjectForm, image: Option<Preview>, gallery: seq<Preview>)

  datatype CreateOutcome = CreateImageUploadFailed | InsertFailed | Created

  datatype EditOutcome = EditImageUploadFailed | UpdateFailed | Updated

  // Grouping

  /** `project.category || "others"`. */
  function GroupKey(p: ProjectRecord): (k: string)
    ensures k != ""
  {
    if p.columns.category == "" then "others" else p.columns.category
  }

  /** The group key of each project, in list order. */
  function Keys(projects: seq<ProjectRecord>): (r: seq<string>)
    ensures |r| == |projects|
    ensures forall i :: 0 <= i < |projects| ==> r[i] == GroupKey(projects[i])
  {
    seq(|projects|, i requires 0 <= i < |projects| => GroupKey(projects[i]))
  }

  /** The projects with key `k`, in list order. */
  function InGroup(projects: seq<ProjectRecord>, k: string): seq<ProjectRecord>
  {
    if projects == [] then []
    else
      var init := InGroup(projects[..|projects| - 1], k);
      if GroupKey(projects[|projects| - 1]) == k then init + [projects[|projects| - 1]] else init
  }

  /** A group holds exactly the projects with its key. */
  lemma {:induction false} InGroupMembers(projects: seq<ProjectRecord>, k: string)
    ensures forall p :: p in InGroup(projects, k) <==> p in projects && GroupKey(p) == k
  {
    if projects != [] {
      var init := projects[..|projects| - 1];
      InGroupMembers(init, k);
      assert projects == init + [projects[|projects| - 1]];
    }
  }

  /** Grouping a concatenation groups each part and keeps the parts in
      order: within a group, projects keep their list order. */
  lemma {:induction false} InGroupAppend(xs: seq<ProjectRecord>, ys: seq<ProjectRecord>, k: string)
    ensures InGroup(xs + ys, k) == InGroup(xs, k) + InGroup(ys, k)
  {
    if ys == [] {
      assert xs + ys == xs;
    } else {
      var init, last := ys[..|ys| - 1], ys[|ys| - 1];
      var tail: seq<ProjectRecord> := if GroupKey(last) == k then [last] else [];
      calc {
        InGroup(xs + ys, k);
        { assert xs + ys == (xs + init) + [last]; }
        InGroup((xs + init) + [last], k);
        { InGroupStep(xs + init, last, k); }
        InGroup(xs + init, k) + tail;
        { InGroupAppend(xs, init, k); }
        (InGroup(xs, k) + InGroup(init, k)) + tail;
        InGroup(xs, k) + (InGroup(init, k) + tail);
        { InGroupStep(init, last, k); assert ys == init + [last]; }
        InGroup(xs, k) + InGroup(ys, k);
      }
    }
  }


  /** Every project lies in the group of its own key and in no other. */
  lemma {:induction false} GroupsPartition(projects: seq<ProjectRecord>)
    ensures forall p :: p in projects ==> p in InGroup(projects, GroupKey(p))
    ensures forall p, k :: p in InGroup(projects, k) ==> k == GroupKey(p)
  {
    forall k {
      InGroupMembers(projects, k);
    }
  }

  /** The group keys are exactly the keys of the projects, each once, in
      order of first appearance. */
  lemma {:induction false} GroupKeysSpec(projects: seq<ProjectRecord>)
    ensures forall k :: k in Dedup(Keys(projects)) <==> exists i :: 0 <= i < |projects| && GroupKey(projects[i]) == k
    ensures Distinct(Dedup(Keys(projects)))
    ensures forall k :: k in Dedup(Keys(projects)) <==> k in Keys(projects)
    ensures forall i, j :: 0 <= i < j < |Dedup(Keys(projects))| ==>
      FirstIndex(Keys(projects), Dedup(Keys(projects))[i]) < FirstIndex(Keys(projects), Dedup(Keys(projects))[j])
  {
    var keys := Keys(projects);
    DedupSpec(keys);
    forall k
      ensures k in keys <==> exists i :: 0 <= i < |projects| && GroupKey(projects[i]) == k
    {
      if k in keys {
        var i :| 0 <= i < |keys| && keys[i] == k;
      }
    }
  }

  lemma {:induction false} KeysStep(before: seq<ProjectRecord>, p: ProjectRecord)
    ensures var d := Dedup(Keys(before));
      Dedup(Keys(before + [p])) == if GroupKey(p) in d then d else d + [GroupKey(p)]
  {
    var all := Keys(before + [p]);
    assert all[..|all| - 1] == Keys(before);
  }

  lemma {:induction false} InGroupStep(before: seq<ProjectRecord>, p: ProjectRecord, k: string)
    ensures InGroup(before + [p], k) == if GroupKey(p) == k then InGroup(before, k) + [p] else InGroup(before, k)
  {
    assert (before + [p])[..|before|] == before;
  }

  /** `groups` and `order` are the reduce's result for the projects `done`. */
  ghost predicate GroupedAs(done: seq<ProjectRecord>, groups: map<string, seq<ProjectRecord>>, order: seq<string>)
  {
    && order == Dedup(Keys(done))
    && (forall k :: k in groups <==> k in order)
    && (forall k :: k in groups ==> groups[k] == InGroup(done, k))
    && (forall k :: k !in groups ==> InGroup(done, k) == [])
  }

  /** One step of the reduce for a new key: a list is created for it and
      the key is appended. */
  lemma {:induction false} GroupStepNew(done: seq<ProjectRecord>, p: ProjectRecord, groups: map<string, seq<ProjectRecord>>, order: seq<string>)
    requires GroupedAs(done, groups, order) && GroupKey(p) !in groups
    ensures GroupedAs(done + [p], groups[GroupKey(p) := [p]], order + [GroupKey(p)])
  {
    KeysStep(done, p);
    forall k' {
      InGroupStep(done, p, k');
    }
  }

  /** One step of the reduce for a key already seen: the project joins the
      end of its list. */
  lemma {:induction false} GroupStepExisting(done: seq<ProjectRecord>, p: ProjectRecord, groups: map<string, seq<ProjectRecord>>, order: seq<string>)
    requires GroupedAs(done, groups, order) && GroupKey(p) in groups
    ensures GroupedAs(done + [p], groups[GroupKey(p) := groups[GroupKey(p)] + [p]], order)
  {
    KeysStep(done, p);
    forall k' {
      InGroupStep(done, p, k');
    }
  }

  /** The `groupedProjects` reduce: one list per key, and the keys in the
      order `Object.entries` yields them (first insertion). */
  method GroupProjects(projects: seq<ProjectRecord>) returns (groups: map<string, seq<ProjectRecord>>, order: seq<string>)
    ensures order == Dedup(Keys(projects))
    ensures forall k :: k in groups <==> k in order
    ensures forall k :: k in groups ==> groups[k] == InGroup(projects, k)
  {
    groups := map[];
    order := [];
    ghost var done: seq<ProjectRecord> := [];
    var i := 0;
    while i < |projects|
      invariant 0 <= i <= |projects| && done == projects[..i]
      invariant GroupedAs(done, groups, order)
    {
      var p := projects[i];
      var k := GroupKey(p);
      if k !in groups {
        GroupStepNew(done, p, groups, order);
        groups := groups[k := [p]];
        order := order + [k];
      } else {
        GroupStepExisting(done, p, groups, order);
        groups := groups[k := groups[k] + [p]];
      }
      done := done + [p];
      i := i + 1;
    }
    assert done == projects;
  }

  // Creating a project

  /** What `handleSubmit` inserts, or `None` when the main image upload
      fails: the main image URL ("" without a file) and the URLs of the
      gallery uploads that succeed. */
  function CreatePlan(service: string, form: ProjectForm, file: Option<LocalFile>, galleryFiles: seq<LocalFile>,
                      upload: LocalFile -> UploadResult): Option<NewProject>
  {
    if file.Some? && upload(file.value).UploadFailed? then None
    else
      var image := if file.Some? then upload(file.value).url else "";
      Some(NewProject(service, form, image, Successful(galleryFiles, upload)))
  }

  /** Only a failed main image upload stops the insert. The row is tagged
      with the selected service; its gallery holds the URLs of the
      successful gallery uploads, all of them when none fails. */
  lemma {:induction false} CreatePlanSpec(service: string, form: ProjectForm, file: Option<LocalFile>, galleryFiles: seq<LocalFile>,
                       upload: LocalFile -> UploadResult)
    ensures CreatePlan(service, form, file, galleryFiles, upload).None? <==> file.Some? && upload(file.value).UploadFailed?
    ensures var plan := CreatePlan(service, form, file, galleryFiles, upload);
      plan.Some? ==>
        && plan.value.service == service && plan.value.form == form
        && (file.None? ==> plan.value.image == "")
        && (file.Some? ==> upload(file.value) == Uploaded(plan.value.image))
        && (forall u :: u in plan.value.gallery <==> exists i :: 0 <= i < |galleryFiles| && upload(galleryFiles[i]) == Uploaded(u))
        && (UploadAll(galleryFiles, upload).Some? ==> plan.value.gallery == UploadAll(galleryFiles, upload).value)
  {
    SuccessfulSpec(galleryFiles, upload);
  }

  // Editing a project

  /** The edit form the prefill effect builds: missing text becomes "" and
      a missing category "current". */
  function EditFormOf(p: ProjectRecord): ProjectForm
  {
    p.columns.(category := if p.columns.category == "" then "current" else p.columns.category)
  }

  /** `editingProject.image || null` as a preview. */
  function ImagePreviewOf(p: ProjectRecord): Option<Preview>
  {
    if p.image == "" then None else Some(Remote(p.image))
  }

  /** `editingProject.gallery || []`. */
  function GalleryOf(p: ProjectRecord): seq<string>
  {
    if p.gallery.Some? then p.gallery.value else []
  }

  /** The gallery `handleEditSubmit` saves: when new files are pending, the
      URLs of their successful uploads only; otherwise the previews. */
  function EditGallery(files: seq<LocalFile>, previews: seq<Preview>, upload: LocalFile -> UploadResult): seq<Preview>
  {
    if |files| > 0 then RemotePreviews(Successful(files, upload)) else previews
  }

  /** What `handleEditSubmit` writes, or `None` when the new main image
      fails to upload. */
  function EditPlan(id: int, form: ProjectForm, file: Option<LocalFile>, preview: Option<Preview>,
                    files: seq<LocalFile>, previews: seq<Preview>, upload: LocalFile -> UploadResult): Option<ProjectUpdate>
  {
    if file.Some? && upload(file.value).UploadFailed? then None
    else
      var image := if file.Some? then Some(Remote(upload(file.value).url)) else preview;
      Some(ProjectUpdate(id, form, image, EditGallery(files, previews, upload)))
  }

  /** Only a failed main image upload stops the update. The image is the
      new upload, or else the current preview. With new gallery files the
      saved gallery is made only of their successful uploads, so the
      gallery shown before is dropped; without, it is the previews as they
      stand. */
  lemma {:induction false} EditPlanSpec(id: int, form: ProjectForm, file: Option<LocalFile>, preview: Option<Preview>,
                     files: seq<LocalFile>, previews: seq<Preview>, upload: LocalFile -> UploadResult)
    ensures EditPlan(id, form, file, preview, files, previews, upload).None? <==> file.Some? && upload(file.value).UploadFailed?
    ensures var plan := EditPlan(id, form, file, preview, files, previews, upload);
      plan.Some? ==>
        && plan.value.id == id && plan.value.form == form
        && (file.Some? ==> plan.value.image.Some? && upload(file.value) == Uploaded(plan.value.image.value.url))
        && (file.None? ==> plan.value.image == preview)
        && (|files| == 0 ==> plan.value.gallery == previews)
        && (|files| > 0 ==> forall q :: q in plan.value.gallery <==>
              q.Remote? && exists i :: 0 <= i < |files| && upload(files[i]) == Uploaded(q.url))
  {
    if |files| > 0 {
      var urls := Successful(files, upload);
      SuccessfulSpec(files, upload);
      forall q
        ensures q in RemotePreviews(urls) <==> q.Remote? && q.url in urls
      {
        if q in RemotePreviews(urls) {
          var i :| 0 <= i < |urls| && RemotePreviews(urls)[i] == q;
        }
        if q.Remote? && q.url in urls {
          var i :| 0 <= i < |urls| && urls[i] == q.url;
          assert RemotePreviews(urls)[i] == q;
        }
      }
    }
  }

  /** `(error && error.message) || !data || data.length === 0`: an error
      with a non-empty message, no returned rows, or an empty row set. */
  predicate UpdateRejected(errorMessage: Option<string>, rows: Option<seq<ProjectRecord>>)
  {
    (errorMessage.Some? && errorMessage.value != "") || rows.None? || |rows.value| == 0
  }

  /** `prev.map((p) => (p.id === id ? row : p))`. */
  function ReplaceById(projects: seq<ProjectRecord>, id: int, row: ProjectRecord): seq<ProjectRecord>
  {
    if projects == [] then []
    else [if projects[0].id == id then row else projects[0]] + ReplaceById(projects[1..], id, row)
  }

  /** Replacing by id keeps the list's length and order, swaps in the row
      exactly where the id matches and leaves every other project as it
      was. */
  lemma {:induction false} ReplaceByIdSpec(projects: seq<ProjectRecord>, id: int, row: ProjectRecord)
    ensures |ReplaceById(projects, id, row)| == |projects|
    ensures forall i :: 0 <= i < |projects| && projects[i].id == id ==> ReplaceById(projects, id, row)[i] == row
    ensures forall i :: 0 <= i < |projects| && projects[i].id != id ==> ReplaceById(projects, id, row)[i] == projects[i]
  {
    if projects != [] {
      ReplaceByIdSpec(projects[1..], id, row);
    }
  }

  /** The edit gallery lists are aligned when the previews are the hosted
      images followed by one object URL per pending file, in file order. */
  predicate Aligned(files: seq<LocalFile>, previews: seq<Preview>)
  {
    && |files| <= |previews|
    && previews[|previews| - |files|..] == ObjectPreviews(files)
    && forall i :: 0 <= i < |previews| - |files| ==> previews[i].Remote?
  }

  /** A gallery of hosted URLs with no pending file is aligned. */
  lemma {:induction false} HostedPreviewsAligned(urls: seq<string>)
    ensures Aligned([], RemotePreviews(urls))
  {
    var previews := RemotePreviews(urls);
    assert previews[|previews|..] == [] == ObjectPreviews([]);
  }

  /** With aligned lists every saved gallery entry is a hosted URL. */
  lemma {:induction false} AlignedGalleryIsHosted(files: seq<LocalFile>, previews: seq<Preview>, upload: LocalFile -> UploadResult)
    requires Aligned(files, previews)
    ensures forall q :: q in EditGallery(files, previews, upload) ==> q.Remote?
  {
    if |files| == 0 {
      forall q | q in previews
        ensures q.Remote?
      {
        var i :| 0 <= i < |previews| && previews[i] == q;
      }
    }
  }

  /** The corrected removal: preview `index` goes, and so does the file it
      shows, if it shows one; the lists stay aligned. */
  lemma {:induction false} AlignedRemoval(files: seq<LocalFile>, previews: seq<Preview>, index: int)
    requires Aligned(files, previews)
    ensures var offset := |previews| - |files|;
      Aligned(if offset <= index < |previews| then RemoveAt(files, index - offset) else files, RemoveAt(previews, index))
  {
    var offset := |previews| - |files|;
    var p' := RemoveAt(previews, index);
    if offset <= index < |previews| {
      var f' := RemoveAt(files, index - offset);
      assert |p'| - |f'| == offset;
      forall j | 0 <= j < |f'|
        ensures p'[offset + j] == Local(f'[j])
      {
        if j < index - offset {
          assert p'[offset + j] == previews[offset + j];
        } else {
          assert p'[offset + j] == previews[offset + j + 1];
        }
      }
    } else if 0 <= index < |previews| {
      assert |p'| - |files| == offset - 1;
      forall j | 0 <= j < |files|
        ensures p'[offset - 1 + j] == Local(files[j])
      {
        assert p'[offset - 1 + j] == previews[offset + j];
      }
      forall j | 0 <= j < offset - 1
        ensures p'[j].Remote?
      {
        assert p'[j] == previews[if j < index then j else j + 1];
      }
    }
  }

  /** The page's state. `loading`, `isUploading`, notifications and
      `resetKey` are left out. */
  class ProjectsAdmin {
    var service: string
    var projects: seq<ProjectRecord>
    var deletingProjectIds: seq<int>
    var form: ProjectForm
    var file: Option<LocalFile>
    var mainImagePreview: Option<Preview>
    var galleryFiles: seq<LocalFile>
    var galleryPreviews: seq<Preview>
    var editingProject: Option<ProjectRecord>
    var editForm: ProjectForm
    var editFile: Option<LocalFile>
    var editMainImagePreview: Option<Preview>
    var editGalleryFiles: seq<LocalFile>
    var editGalleryPreviews: seq<Preview>

    /** The create form shows one object URL per pending gallery file, and
        the main preview is the chosen file's. */
    predicate Valid()
      reads this
    {
      && galleryPreviews == ObjectPreviews(galleryFiles)
      && mainImagePreview == (if file.Some? then Some(Local(file.value)) else None)
    }

    /** The edit gallery lists are aligned. */
    predicate EditAligned()
      reads this
    {
      Aligned(editGalleryFiles, editGalleryPreviews)
    }

    predicate CreateFormIsReset()
      reads this
    {
      form == InitialForm && file == None && mainImagePreview == None && galleryFiles == [] && galleryPreviews == []
    }

    /** The edit side of the state is as it was. */
    twostate predicate EditUnchanged()
      reads this
    {
      && editingProject == old(editingProject) && editForm == old(editForm) && editFile == old(editFile)
      && editMainImagePreview == old(editMainImagePreview)
      && editGalleryFiles == old(editGalleryFiles) && editGalleryPreviews == old(editGalleryPreviews)
    }

    /** The create side of the state is as it was. */
    twostate predicate CreateUnchanged()
      reads this
    {
      && form == old(form) && file == old(file) && mainImagePreview == old(mainImagePreview)
      && galleryFiles == old(galleryFiles) && galleryPreviews == old(galleryPreviews)
    }

    constructor ()
      ensures Valid() && CreateFormIsReset() && EditAligned()
      ensures service == DefaultService && projects == [] && deletingProjectIds == [] && editingProject == None
    {
      service := DefaultService;
      projects := [];
      deletingProjectIds := [];
      form := InitialForm;
      file := None;
      mainImagePreview := None;
      galleryFiles := [];
      galleryPreviews := [];
      editingProject := None;
      editForm := InitialForm;
      editFile := None;
      editMainImagePreview := None;
      editGalleryFiles := [];
      editGalleryPreviews := [];
    }

    /** A service button and the fetch it triggers: the list is replaced
        by the fetched rows unless the read fails. */
    method SelectService(s: string, fetched: Option<seq<ProjectRecord>>)
      modifies this
      ensures service == s
      ensures projects == if fetched.Some? then fetched.value else old(projects)
      ensures deletingProjectIds == old(deletingProjectIds) && CreateUnchanged() && EditUnchanged()
    {
      service := s;
      if fetched.Some? {
        projects := fetched.value;
      }
    }

    /** `handleSubmit`, given the insert's result and the re-read that
        follows a successful insert. A failed main image upload or a failed
        insert changes nothing; a successful insert resets the create form
        and shows the re-read list of the service. */
    method HandleSubmit(upload: LocalFile -> UploadResult, insertOk: bool, refetched: Option<seq<ProjectRecord>>)
      returns (outcome: CreateOutcome, insert: Option<NewProject>)
      requires Valid()
      modifies this
      ensures Valid()
      ensures insert == CreatePlan(old(service), old(form), old(file), old(galleryFiles), upload)
      ensures outcome == CreateImageUploadFailed <==> insert.None?
      ensures outcome == Created <==> insert.Some? && insertOk
      ensures outcome == Created ==> CreateFormIsReset()
      ensures outcome == Created ==> projects == if refetched.Some? then refetched.value else old(projects)
      ensures outcome != Created ==> unchanged(this)
      ensures service == old(service) && deletingProjectIds == old(deletingProjectIds) && EditUnchanged()
    {
      ghost var plan := CreatePlan(service, form, file, galleryFiles, upload);
      var imageUrl := "";
      if file.Some? {
        match upload(file.value) {
          case UploadFailed =>
            return CreateImageUploadFailed, None;
          case Uploaded(u) =>
            imageUrl := u;
        }
      }
      var galleryUrls := UploadSequentially(galleryFiles, upload);
      insert := Some(NewProject(service, form, imageUrl, galleryUrls));
      assert insert == plan;
      if !insertOk {
        return InsertFailed, insert;
      }
      outcome := Created;
      ResetCreateForm();
      if refetched.Some? {
        projects := refetched.value;
      }
    }

    /** The create form's reset after a successful insert. */
    method ResetCreateForm()
      modifies this
      ensures Valid() && CreateFormIsReset()
      ensures service == old(service) && projects == old(projects) && deletingProjectIds == old(deletingProjectIds)
      ensures EditUnchanged()
    {
      form := InitialForm;
      file := None;
      mainImagePreview := None;
      galleryFiles := [];
      galleryPreviews := [];
    }

    /** The Edit button and the prefill effect it triggers. */
    method StartEdit(p: ProjectRecord)
      modifies this
      ensures editingProject == Some(p) && editForm == EditFormOf(p)
      ensures editFile == None && editMainImagePreview == ImagePreviewOf(p)
      ensures editGalleryFiles == [] && editGalleryPreviews == RemotePreviews(GalleryOf(p))
      ensures EditAligned()
      ensures service == old(service) && projects == old(projects) && deletingProjectIds == old(deletingProjectIds)
      ensures CreateUnchanged()
    {
      editingProject := Some(p);
      editForm := EditFormOf(p);
      editFile := None;
      editMainImagePreview := ImagePreviewOf(p);
      editGalleryFiles := [];
      editGalleryPreviews := RemotePreviews(GalleryOf(p));
      HostedPreviewsAligned(GalleryOf(p));
    }

    /** The Cancel button: only the project being edited is forgotten. */
    method CancelEdit()
      modifies this
      ensures editingProject == None
      ensures editForm == old(editForm) && editFile == old(editFile) && editMainImagePreview == old(editMainImagePreview)
      ensures editGalleryFiles == old(editGalleryFiles) && editGalleryPreviews == old(editGalleryPreviews)
      ensures service == old(service) && projects == old(projects) && deletingProjectIds == old(deletingProjectIds)
      ensures CreateUnchanged()
    {
      editingProject := None;
    }

    /** `handleEditSubmit`, given the update's error message and returned
        rows. A failed main image upload or a rejected update changes
        nothing; an accepted one puts the first returned row in place of
        the edited project and closes the edit form. With aligned gallery
        lists only hosted URLs are saved. */
    method HandleEditSubmit(upload: LocalFile -> UploadResult, errorMessage: Option<string>, rows: Option<seq<ProjectRecord>>)
      returns (outcome: EditOutcome, update: Option<ProjectUpdate>)
      requires editingProject.Some?
      modifies this
      ensures update == EditPlan(old(editingProject).value.id, old(editForm), old(editFile), old(editMainImagePreview),
                                 old(editGalleryFiles), old(editGalleryPreviews), upload)
      ensures outcome == EditImageUploadFailed <==> update.None?
      ensures outcome == Updated <==> update.Some? && !UpdateRejected(errorMessage, rows)
      ensures outcome == Updated ==>
        projects == ReplaceById(old(projects), old(editingProject).value.id, rows.value[0]) && editingProject == None
      ensures outcome != Updated ==> unchanged(this)
      ensures old(EditAligned()) && update.Some? ==> forall q :: q in update.value.gallery ==> q.Remote?
      ensures editForm == old(editForm) && editGalleryFiles == old(editGalleryFiles) && editGalleryPreviews == old(editGalleryPreviews)
      ensures editFile == old(editFile) && editMainImagePreview == old(editMainImagePreview)
      ensures service == old(service) && deletingProjectIds == old(deletingProjectIds) && CreateUnchanged()
    {
      ghost var plan := EditPlan(editingProject.value.id, editForm, editFile, editMainImagePreview,
                                 editGalleryFiles, editGalleryPreviews, upload);
      ghost var aligned := EditAligned();
      var newImage := editMainImagePreview;
      if editFile.Some? {
        match upload(editFile.value) {
          case UploadFailed =>
            return EditImageUploadFailed, None;
          case Uploaded(u) =>
            newImage := Some(Remote(u));
        }
      }
      var newGallery := editGalleryPreviews;
      if |editGalleryFiles| > 0 {
        var urls := UploadSequentially(editGalleryFiles, upload);
        newGallery := RemotePreviews(urls);
      }
      assert newGallery == EditGallery(editGalleryFiles, editGalleryPreviews, upload);
      update := Some(ProjectUpdate(editingProject.value.id, editForm, newImage, newGallery));
      assert update == plan;
      if aligned {
        AlignedGalleryIsHosted(editGalleryFiles, editGalleryPreviews, upload);
      }
      if UpdateRejected(errorMessage, rows) {
        return UpdateFailed, update;
      }
      outcome := Updated;
      projects := ReplaceById(projects, editingProject.value.id, rows.value[0]);
      editingProject := None;
    }

    /** The create form's main image input. */
    method SelectMainImage(selected: Option<LocalFile>)
      requires Valid()
      modifies this
      ensures Valid()
      ensures file == selected
      ensures form == old(form) && galleryFiles == old(galleryFiles)
      ensures service == old(service) && projects == old(projects) && deletingProjectIds == old(deletingProjectIds)
      ensures EditUnchanged()
    {
      file := selected;
      mainImagePreview := if selected.Some? then Some(Local(selected.value)) else None;
    }

    /** The create form's gallery input and drop zone: both append. */
    method AddGalleryFiles(files: seq<LocalFile>)
      requires Valid()
      modifies this
      ensures Valid()
      ensures galleryFiles == old(galleryFiles) + files
      ensures galleryPreviews == old(galleryPreviews) + ObjectPreviews(files)
      ensures form == old(form) && file == old(file)
      ensures service == old(service) && projects == old(projects) && deletingProjectIds == old(deletingProjectIds)
      ensures EditUnchanged()
    {
      galleryFiles := galleryFiles + files;
      galleryPreviews := galleryPreviews + ObjectPreviews(files);
    }

    /** The create form's remove button on preview `index`: the same index
        leaves both lists, which here show the same files. */
    method RemoveGalleryImage(index: int)
      requires Valid()
      modifies this
      ensures Valid()
      ensures galleryFiles == RemoveAt(old(galleryFiles), index)
      ensures galleryPreviews == RemoveAt(old(galleryPreviews), index)
      ensures form == old(form) && file == old(file)
      ensures service == old(service) && projects == old(projects) && deletingProjectIds == old(deletingProjectIds)
      ensures EditUnchanged()
    {
      galleryFiles := RemoveAt(galleryFiles, index);
      galleryPreviews := RemoveAt(galleryPreviews, index);
    }

    /** The edit form's main image input: a selection shows its object
        URL; no selection clears the file and keeps the preview. */
    method SelectEditMainImage(selected: Option<LocalFile>)
      modifies this
      ensures editFile == selected
      ensures editMainImagePreview == if selected.Some? then Some(Local(selected.value)) else old(editMainImagePreview)
      ensures editingProject == old(editingProject) && editForm == old(editForm)
      ensures editGalleryFiles == old(editGalleryFiles) && editGalleryPreviews == old(editGalleryPreviews)
      ensures service == old(service) && projects == old(projects) && deletingProjectIds == old(deletingProjectIds)
      ensures CreateUnchanged()
    {
      editFile := selected;
      if selected.Some? {
        editMainImagePreview := Some(Local(selected.value));
      }
    }

    /** The edit form's gallery input and drop zone: both append. */
    method AddEditGalleryFiles(files: seq<LocalFile>)
      modifies this
      ensures editGalleryFiles == old(editGalleryFiles) + files
      ensures editGalleryPreviews == old(editGalleryPreviews) + ObjectPreviews(files)
      ensures old(EditAligned()) ==> EditAligned()
      ensures editingProject == old(editingProject) && editForm == old(editForm)
      ensures editFile == old(editFile) && editMainImagePreview == old(editMainImagePreview)
      ensures service == old(service) && projects == old(projects) && deletingProjectIds == old(deletingProjectIds)
      ensures CreateUnchanged()
    {
      ghost var aligned := EditAligned();
      ghost var f := editGalleryFiles;
      ghost var p := editGalleryPreviews;
      editGalleryFiles := editGalleryFiles + files;
      editGalleryPreviews := editGalleryPreviews + ObjectPreviews(files);
      if aligned {
        var offset := |p| - |f|;
        assert editGalleryPreviews[offset..] == p[offset..] + ObjectPreviews(files);
        assert ObjectPreviews(f) + ObjectPreviews(files) == ObjectPreviews(f + files);
        forall j | 0 <= j < offset
          ensures editGalleryPreviews[j].Remote?
        {
          assert editGalleryPreviews[j] == p[j];
        }
      }
    }

    /** As written, the edit form's remove button on preview `index`
        removes index `index` from both lists, although the previews start
        with the hosted images that have no file. */
    method RemoveEditGalleryImage(index: int)
      modifies this
      ensures editGalleryFiles == RemoveAt(old(editGalleryFiles), index)
      ensures editGalleryPreviews == RemoveAt(old(editGalleryPreviews), index)
      ensures editingProject == old(editingProject) && editForm == old(editForm)
      ensures editFile == old(editFile) && editMainImagePreview == old(editMainImagePreview)
      ensures service == old(service) && projects == old(projects) && deletingProjectIds == old(deletingProjectIds)
      ensures CreateUnchanged()
    {
      editGalleryFiles := RemoveAt(editGalleryFiles, index);
      editGalleryPreviews := RemoveAt(editGalleryPreviews, index);
    }

    /** The corrected remove button: the preview goes, and the file goes
        only if the preview shows one, at its own position among the
        files. */
    method RemoveEditGalleryImageAligned(index: int)
      requires EditAligned()
      modifies this
      ensures EditAligned()
      ensures editGalleryPreviews == RemoveAt(old(editGalleryPreviews), index)
      ensures var offset := |old(editGalleryPreviews)| - |old(editGalleryFiles)|;
        editGalleryFiles == if offset <= index < |old(editGalleryPreviews)|
          then RemoveAt(old(editGalleryFiles), index - offset) else old(editGalleryFiles)
      ensures editingProject == old(editingProject) && editForm == old(editForm)
      ensures editFile == old(editFile) && editMainImagePreview == old(editMainImagePreview)
      ensures service == old(service) && projects == old(projects) && deletingProjectIds == old(deletingProjectIds)
      ensures CreateUnchanged()
    {
      AlignedRemoval(editGalleryFiles, editGalleryPreviews, index);
      var offset := |editGalleryPreviews| - |editGalleryFiles|;
      if offset <= index < |editGalleryPreviews| {
        editGalleryFiles := RemoveAt(editGalleryFiles, index - offset);
      }
      editGalleryPreviews := RemoveAt(editGalleryPreviews, index);
    }

    /** `deleteProject(project)` up to the image request: after
        confirmation the id is marked and the request names the main image
        and the gallery (`[]` when absent). */
    method BeginDelete(project: ProjectRecord, confirmed: bool) returns (request: Option<DeleteImage.DeleteRequest>)
      modifies this
      ensures request == if confirmed then Some(DeleteImage.ProjectDeleteRequest(project.image, GalleryOf(project))) else None
      ensures deletingProjectIds == if confirmed then old(deletingProjectIds) + [project.id] else old(deletingProjectIds)
      ensures service == old(service) && projects == old(projects) && CreateUnchanged() && EditUnchanged()
    {
      if confirmed {
        deletingProjectIds := deletingProjectIds + [project.id];
        request := Some(DeleteImage.ProjectDeleteRequest(project.image, GalleryOf(project)));
      } else {
        request := None;
      }
    }

    /** The rest of `deleteProject(project)`, given whether the image
        request answered ok and whether the row delete succeeded: a failed
        image request returns before the row delete; the project leaves
        the list only when its row is deleted; the id leaves the in-flight
        list on every path. */
    method CompleteDelete(project: ProjectRecord, imageOk: bool, rowOk: bool) returns (rowDeleteSent: bool)
      modifies this
      ensures rowDeleteSent == imageOk
      ensures deletingProjectIds == Without(old(deletingProjectIds), project.id)
      ensures projects == if imageOk && rowOk then WithoutId(old(projects), ProjectId, project.id) else old(projects)
      ensures service == old(service) && CreateUnchanged() && EditUnchanged()
    {
      if !imageOk {
        deletingProjectIds := Without(deletingProjectIds, project.id);
        return false;
      }
      rowDeleteSent := true;
      if rowOk {
        projects := WithoutId(projects, ProjectId, project.id);
      }
      deletingProjectIds := Without(deletingProjectIds, project.id);
    }
  }

  /** A project with one hosted gallery image. */
  const HostedGalleryProject: ProjectRecord :=
    ProjectRecord(7, DefaultService, InitialForm, "", Some(["https://res.cloudinary.com/demo/image/upload/v1/a.jpg"]))

  /** As written: edit a project with one hosted gallery image, add a file,
      then remove the hosted image's preview. The file is dropped instead,
      the file's object URL stays, and saving writes that object URL as
      the gallery. */
  method RemovingHostedImageSavesObjectUrl(f: LocalFile, upload: LocalFile -> UploadResult)
    returns (update: Option<ProjectUpdate>)
    ensures update.Some? && update.value.gallery == [Local(f)]
  {
    var admin := new ProjectsAdmin();
    admin.StartEdit(HostedGalleryProject);
    admin.AddEditGalleryFiles([f]);
    admin.RemoveEditGalleryImage(0);
    assert admin.editGalleryFiles == [];
    assert admin.editGalleryPreviews == [Local(f)];
    var _, u := admin.HandleEditSubmit(upload, None, None);
    update := u;
  }

  /** Corrected: the same steps with the aligned removal drop the hosted
      image and keep the file, so only hosted URLs can be saved. */
  method RemovingHostedImageKeepsFile(f: LocalFile, upload: LocalFile -> UploadResult)
    returns (files: seq<LocalFile>, update: Option<ProjectUpdate>)
    ensures files == [f]
    ensures update.Some? && forall q :: q in update.value.gallery ==> q.Remote?
  {
    var admin := new ProjectsAdmin();
    admin.StartEdit(HostedGalleryProject);
    admin.AddEditGalleryFiles([f]);
    assert |admin.editGalleryPreviews| == 2 && admin.editGalleryFiles == [f];
    admin.RemoveEditGalleryImageAligned(0);
    assert admin.editGalleryFiles == [f];
    files := admin.editGalleryFiles;
    var _, u := admin.HandleEditSubmit(upload, None, None);
    update := u;
  }
}
