/** The property editor of the admin panel (app/admin/buy-sell/page.js): a
    form, a main image and a gallery assembled from kept hosted URLs and
    new uploads, written to the properties table as an insert or an update. */
module PropertyEditor {
  import opened Text
  import opened Wrappers
  import opened Uploads
  import opened Lists
  import Slug
  import Numbers

  /** The form's text fields (`initialForm`). */
  datatype PropertyForm = PropertyForm(
    slug: string, title: string, address: string, price: string, propertytype: string,
    bedrooms: string, bathrooms: string, area: string, features: string, description: string,
    agentname: string, agentphone: string, agentemail: string)

  const InitialForm: PropertyForm := PropertyForm("", "", "", "", "", "", "", "", "", "", "", "", "")

  /** An image object `{ url, public_id }`. */
  datatype ImageRef = ImageRef(url: string, publicId: string)

  /** A row of the properties table; an absent text column reads as "". */
  datatype PropertyRecord = PropertyRecord(
    id: int, slug: string, title: string, address: string, price: string, propertytype: string,
    bedrooms: Option<int>, bathrooms: Option<int>, area: string, features: Option<seq<string>>,
    description: string, agentname: string, agentphone: string, agentemail: string,
    mainImage: Option<ImageRef>, galleryImages: Option<seq<ImageRef>>)

  /** The object written to the table. A NaN from `parseInt` is sent as
      null, so it is `None` like an empty field. */
  datatype Payload = Payload(
    slug: string, title: string, address: string, price: string, description: string,
    bedrooms: Option<int>, bathrooms: Option<int>, area: string, propertytype: string,
    features: seq<string>, agentname: string, agentphone: string, agentemail: string,
    mainImage: Option<ImageRef>, galleryImages: seq<ImageRef>)

  datatype PropertyWrite = UpdateProperty(id: int, payload: Payload) | InsertProperty(payload: Payload)

  datatype SubmitOutcome = MainImageUploadFailed | GalleryUploadFailed | WriteFailed | Saved

  // Payload fields

  /** `form.slug || generateSlug(form.title)`. */
  function PayloadSlug(form: PropertyForm): string
  {
    if form.slug != "" then form.slug else Slug.GenerateSlug(form.title)
  }

  /** An entered slug is kept; otherwise the slug is the one generated from
      the title, and so is in slug form; it is empty only when neither gives
      anything. */
  lemma {:induction false} PayloadSlugSpec(form: PropertyForm)
    ensures form.slug != "" ==> PayloadSlug(form) == form.slug
    ensures form.slug == "" ==> PayloadSlug(form) == Slug.GenerateSlug(form.title)
    ensures form.slug == "" ==>
      Slug.InSlugAlphabet(PayloadSlug(form)) && Slug.NoDoubleHyphen(PayloadSlug(form)) && Slug.NoEdgeHyphen(PayloadSlug(form))
    ensures PayloadSlug(form) == "" <==> form.slug == "" && Slug.SlugChars(LowerString(form.title)) == ""
  {
    Slug.SlugEmptyIff(form.title);
  }

  /** `text ? parseInt(text) : null` for the bedroom and bathroom fields. */
  function CountField(text: string): Option<int>
  {
    if text == "" then None else Numbers.ParseInt(text)
  }

  /** `.map((f) => f.trim())`. */
  function TrimAll(xs: seq<string>): (r: seq<string>)
    ensures |r| == |xs|
    ensures forall i :: 0 <= i < |xs| ==> r[i] == Trim(xs[i])
  {
    Map(Trim, xs)
  }

  /** `form.features.split(",").map((f) => f.trim()).filter(Boolean)`. */
  function SplitFeatures(text: string): seq<string>
  {
    Without(TrimAll(Split(text, ',')), "")
  }

  /** The edit form's features text, `prop.features.join(", ")`. */
  function JoinFeatures(features: seq<string>): string
  {
    Join(features, ", ")
  }

  /** A feature that survives the round trip: non-empty, without a comma
      and without white space at either end. */
  predicate PlainFeature(f: string)
  {
    f != "" && ',' !in f && Trim(f) == f
  }

  lemma {:induction false} SplitWithoutSeparator(s: string, sep: char)
    requires sep !in s
    ensures Split(s, sep) == [s]
  {
    if s != [] {
      SplitWithoutSeparator(s[1..], sep);
      assert [s[0]] + s[1..] == s;
    }
  }

  lemma {:induction false} TrimAllAfterBlank(s: string)
    ensures TrimAll(Split([' '] + s, ',')) == TrimAll(Split(s, ','))
  {
    var t := [' '] + s;
    assert t[1..] == s;
    var rest := Split(s, ',');
    var pieces := Split(t, ',');
    assert pieces == [[' '] + rest[0]] + rest[1..];
    assert rest == [rest[0]] + rest[1..];
    TrimAllCons([' '] + rest[0], rest[1..]);
    TrimAllCons(rest[0], rest[1..]);
    TrimStartsWithBlank(rest[0]);
  }

  lemma {:induction false} JoinFeaturesCons(features: seq<string>)
    requires |features| >= 2
    ensures JoinFeatures(features) == features[0] + [','] + ([' '] + JoinFeatures(features[1..]))
  {
    assert JoinFeatures(features) == features[0] + ", " + JoinFeatures(features[1..]);
  }

  lemma {:induction false} SplitFeaturesCons(f: string, rest: string)
    requires PlainFeature(f)
    ensures SplitFeatures(f + [','] + ([' '] + rest)) == [f] + SplitFeatures(rest)
  {
    var pieces := Split([' '] + rest, ',');
    var tail := TrimAll(Split(rest, ','));
    SplitAfterHead(f, ',', [' '] + rest);
    TrimAllAfterBlank(rest);
    TrimAllCons(f, pieces);
    assert TrimAll([f] + pieces) == [f] + tail;
    assert Without([f] + tail, "") == [f] + Without(tail, "") by {
      assert ([f] + tail)[1..] == tail;
    }
  }

  lemma {:induction false} TrimAllCons(x: string, xs: seq<string>)
    ensures TrimAll([x] + xs) == [Trim(x)] + TrimAll(xs)
  {
    MapCons(Trim, x, xs);
  }

  lemma {:induction false} SingleFeatureRoundTrip(f: string)
    requires PlainFeature(f)
    ensures SplitFeatures(JoinFeatures([f])) == [f]
  {
    SplitWithoutSeparator(f, ',');
    assert TrimAll([f]) == [f];
    assert [f][1..] == [];
  }

  /** Features written into the edit form come back unchanged on submit
      when each is non-empty, comma-free and trimmed. */
  lemma {:induction false} FeaturesRoundTrip(features: seq<string>)
    requires forall i :: 0 <= i < |features| ==> PlainFeature(features[i])
    ensures SplitFeatures(JoinFeatures(features)) == features
  {
    if features == [] {
      assert SplitFeatures("") == [] by {
        assert Split("", ',') == [""];
        assert TrimAll([""]) == [""];
      }
    } else if |features| == 1 {
      SingleFeatureRoundTrip(features[0]);
    } else {
      JoinFeaturesCons(features);
      SplitFeaturesCons(features[0], JoinFeatures(features[1..]));
      FeaturesRoundTrip(features[1..]);
    }
  }

  /** `galleryUrls.map((url) => ({ url, public_id: "" }))`. */
  function NewImages(urls: seq<string>): (r: seq<ImageRef>)
    ensures |r| == |urls|
    ensures forall i :: 0 <= i < |urls| ==> r[i] == ImageRef(urls[i], "")
  {
    seq(|urls|, i requires 0 <= i < |urls| => ImageRef(urls[i], ""))
  }

  /** The URLs written into a gallery are read back unchanged and in order,
      and none of the written images carries a public id. */
  lemma {:induction false} NewImagesRoundTrip(urls: seq<string>)
    ensures Urls(NewImages(urls)) == urls
    ensures forall img :: img in NewImages(urls) ==> img.publicId == ""
  {
    var r := Urls(NewImages(urls));
    assert |r| == |urls|;
    forall i | 0 <= i < |urls|
      ensures r[i] == urls[i]
    {
    }
  }

  function Urls(images: seq<ImageRef>): (r: seq<string>)
    ensures |r| == |images|
    ensures forall i :: 0 <= i < |images| ==> r[i] == images[i].url
  {
    seq(|images|, i requires 0 <= i < |images| => images[i].url)
  }

  /** `mainImageUrl ? { url: mainImageUrl, public_id: "" } : editingProperty?.main_image || null`. */
  function MainImageField(mainUrl: Option<string>, editing: Option<PropertyRecord>): Option<ImageRef>
  {
    if mainUrl.Some? && mainUrl.value != "" then Some(ImageRef(mainUrl.value, ""))
    else if editing.Some? then editing.value.mainImage
    else None
  }

  /** The `payload` object of `handleSubmit`. */
  function BuildPayload(form: PropertyForm, mainUrl: Option<string>, editing: Option<PropertyRecord>, gallery: seq<string>): Payload
  {
    Payload(
      PayloadSlug(form), form.title, form.address, form.price, form.description,
      CountField(form.bedrooms), CountField(form.bathrooms), form.area, form.propertytype,
      SplitFeatures(form.features), form.agentname, form.agentphone, form.agentemail,
      MainImageField(mainUrl, editing), NewImages(gallery))
  }

  // The submit plan

  /** The main image preview is an object URL only for the chosen file. */
  predicate MainPreviewTracksFile(file: Option<LocalFile>, preview: Option<Preview>)
  {
    preview.Some? && preview.value.Local? ==> file == Some(preview.value.file)
  }

  /** Step 1: the main image URL, `None` when the upload of a chosen file
      fails; without a file it is the preview (a hosted URL or null). */
  function UploadMain(file: Option<LocalFile>, preview: Option<Preview>, upload: LocalFile -> UploadResult): Option<Option<string>>
    requires MainPreviewTracksFile(file, preview)
  {
    if file.Some? then
      match upload(file.value)
      case UploadFailed => None
      case Uploaded(u) => Some(Some(u))
    else if preview.Some? then Some(Some(preview.value.url))
    else Some(None)
  }

  /** Step 2: the kept existing URLs followed, when files are pending, by
      their uploads; `None` when `Promise.all` rejects. */
  function FinalGallery(existing: seq<string>, removed: seq<string>, files: seq<LocalFile>, upload: LocalFile -> UploadResult): Option<seq<string>>
  {
    var kept := WithoutAll(existing, removed);
    if |files| > 0 then
      match UploadAll(files, upload)
      case None => None
      case Some(urls) => Some(kept + urls)
    else Some(kept)
  }

  /** What `handleSubmit` writes for a given editor state, or `None` when it
      returns before writing. */
  function SubmitPlan(form: PropertyForm, editing: Option<PropertyRecord>, file: Option<LocalFile>, preview: Option<Preview>,
                      files: seq<LocalFile>, existing: seq<string>, removed: seq<string>,
                      upload: LocalFile -> UploadResult): Option<PropertyWrite>
    requires MainPreviewTracksFile(file, preview)
  {
    match UploadMain(file, preview, upload)
    case None => None
    case Some(mainUrl) =>
      match FinalGallery(existing, removed, files, upload)
      case None => None
      case Some(gallery) =>
        var payload := BuildPayload(form, mainUrl, editing, gallery);
        Some(if editing.Some? then UpdateProperty(editing.value.id, payload) else InsertProperty(payload))
  }

  /** Nothing is written exactly when the chosen main image or any pending
      gallery file fails to upload. */
  lemma {:induction false} SubmitAbortsOnUploadFailure(form: PropertyForm, editing: Option<PropertyRecord>, file: Option<LocalFile>, preview: Option<Preview>,
                                    files: seq<LocalFile>, existing: seq<string>, removed: seq<string>,
                                    upload: LocalFile -> UploadResult)
    requires MainPreviewTracksFile(file, preview)
    ensures SubmitPlan(form, editing, file, preview, files, existing, removed, upload).None? <==>
      (file.Some? && upload(file.value).UploadFailed?) ||
      (exists i :: 0 <= i < |files| && upload(files[i]).UploadFailed?)
  {
    UploadAllSpec(files, upload);
  }

  /** A written gallery is the existing URLs not removed, in their order,
      followed by one uploaded URL per pending file, in file order; an
      update goes to the edited row and an insert is made otherwise. */
  lemma {:induction false} SubmitGallery(form: PropertyForm, editing: Option<PropertyRecord>, file: Option<LocalFile>, preview: Option<Preview>,
                      files: seq<LocalFile>, existing: seq<string>, removed: seq<string>,
                      upload: LocalFile -> UploadResult)
    requires MainPreviewTracksFile(file, preview)
    requires SubmitPlan(form, editing, file, preview, files, existing, removed, upload).Some?
    ensures var w := SubmitPlan(form, editing, file, preview, files, existing, removed, upload).value;
      var gallery := Urls(w.payload.galleryImages);
      var kept := WithoutAll(existing, removed);
      && |gallery| == |kept| + |files|
      && gallery[..|kept|] == kept
      && (forall i :: 0 <= i < |files| ==> upload(files[i]) == Uploaded(gallery[|kept| + i]))
      && (w.UpdateProperty? <==> editing.Some?)
      && (w.UpdateProperty? ==> w.id == editing.value.id)
  {
    var g := FinalGallery(existing, removed, files, upload).value;
    FinalGalleryShape(existing, removed, files, upload);
    NewImagesRoundTrip(g);
  }

  lemma {:induction false} FinalGalleryShape(existing: seq<string>, removed: seq<string>, files: seq<LocalFile>,
                                             upload: LocalFile -> UploadResult)
    requires FinalGallery(existing, removed, files, upload).Some?
    ensures var g := FinalGallery(existing, removed, files, upload).value;
      var kept := WithoutAll(existing, removed);
      && |g| == |kept| + |files|
      && g[..|kept|] == kept
      && (forall i :: 0 <= i < |files| ==> upload(files[i]) == Uploaded(g[|kept| + i]))
  {
    UploadAllSpec(files, upload);
  }

  /** The written main image: the uploaded file's URL when a file was
      chosen, else the preview's hosted URL, else the edited row's image. */
  lemma {:induction false} SubmitMainImage(form: PropertyForm, editing: Option<PropertyRecord>, file: Option<LocalFile>, preview: Option<Preview>,
                        files: seq<LocalFile>, existing: seq<string>, removed: seq<string>,
                        upload: LocalFile -> UploadResult)
    requires MainPreviewTracksFile(file, preview)
    requires SubmitPlan(form, editing, file, preview, files, existing, removed, upload).Some?
    ensures var image := SubmitPlan(form, editing, file, preview, files, existing, removed, upload).value.payload.mainImage;
      && (file.Some? ==> upload(file.value).Uploaded?)
      && (file.Some? && upload(file.value).Uploaded? && upload(file.value).url != "" ==>
            image == Some(ImageRef(upload(file.value).url, "")))
      && (file.None? && preview.Some? && preview.value.url != "" ==> image == Some(ImageRef(preview.value.url, "")))
      && (file.None? && preview.None? ==> image == if editing.Some? then editing.value.mainImage else None)
  {
  }

  // Editing a row

  /** `prop.bedrooms ? prop.bedrooms.toString() : ""`. */
  function EditCountText(count: Option<int>): string
  {
    if count.Some? && count.value != 0 then Numbers.IntToString(count.value) else ""
  }

  /** The form `handleEdit(prop)` fills in. */
  function EditForm(prop: PropertyRecord): PropertyForm
  {
    PropertyForm(
      prop.slug, prop.title, prop.address, prop.price, prop.propertytype,
      EditCountText(prop.bedrooms), EditCountText(prop.bathrooms), prop.area,
      if prop.features.Some? then JoinFeatures(prop.features.value) else "",
      prop.description, prop.agentname, prop.agentphone, prop.agentemail)
  }

  /** `prop.main_image?.url || null`. */
  function MainPreviewOf(prop: PropertyRecord): Option<Preview>
  {
    if prop.mainImage.Some? && prop.mainImage.value.url != "" then Some(Remote(prop.mainImage.value.url)) else None
  }

  /** `prop.gallery_images?.map((img) => img.url) || []`. */
  function GalleryUrlsOf(prop: PropertyRecord): seq<string>
  {
    if prop.galleryImages.Some? then Urls(prop.galleryImages.value) else []
  }

  /** What saving an untouched edit of `prop` writes. */
  function UntouchedEdit(prop: PropertyRecord, upload: LocalFile -> UploadResult): Option<PropertyWrite>
  {
    SubmitPlan(EditForm(prop), Some(prop), None, MainPreviewOf(prop), [], GalleryUrlsOf(prop), [], upload)
  }

  /** Opening a row for editing and saving it untouched updates that same
      row, with the same slug. */
  lemma {:induction false} EditThenSaveTargetsRow(prop: PropertyRecord, upload: LocalFile -> UploadResult)
    requires prop.slug != ""
    ensures UntouchedEdit(prop, upload).Some?
    ensures UntouchedEdit(prop, upload).value.UpdateProperty?
    ensures UntouchedEdit(prop, upload).value.id == prop.id
    ensures UntouchedEdit(prop, upload).value.payload.slug == prop.slug
  {
    PlanWithoutUploads(EditForm(prop), Some(prop), MainPreviewOf(prop), GalleryUrlsOf(prop), upload);
  }

  /** Saving an untouched edit writes back the row's gallery URLs in order. */
  lemma {:induction false} EditThenSaveKeepsGallery(prop: PropertyRecord, upload: LocalFile -> UploadResult)
    ensures UntouchedEdit(prop, upload).Some?
    ensures Urls(UntouchedEdit(prop, upload).value.payload.galleryImages) == GalleryUrlsOf(prop)
  {
    PlanWithoutUploads(EditForm(prop), Some(prop), MainPreviewOf(prop), GalleryUrlsOf(prop), upload);
    var w := UntouchedEdit(prop, upload).value;
    assert w.payload.galleryImages == NewImages(GalleryUrlsOf(prop));
    NewImagesRoundTrip(GalleryUrlsOf(prop));
  }

  /** Saving an untouched edit keeps the row's main image URL. */
  lemma {:induction false} EditThenSaveKeepsMainImage(prop: PropertyRecord, upload: LocalFile -> UploadResult)
    requires prop.mainImage.Some?
    ensures UntouchedEdit(prop, upload).Some?
    ensures UntouchedEdit(prop, upload).value.payload.mainImage.Some?
    ensures UntouchedEdit(prop, upload).value.payload.mainImage.value.url == prop.mainImage.value.url
  {
    var preview := MainPreviewOf(prop);
    PlanWithoutUploads(EditForm(prop), Some(prop), preview, GalleryUrlsOf(prop), upload);
    var mainUrl := if preview.Some? then Some(preview.value.url) else None;
    var payload := BuildPayload(EditForm(prop), mainUrl, Some(prop), GalleryUrlsOf(prop));
    assert UntouchedEdit(prop, upload) == Some(UpdateProperty(prop.id, payload));
    if prop.mainImage.value.url != "" {
      assert payload.mainImage == Some(ImageRef(prop.mainImage.value.url, ""));
    } else {
      assert payload.mainImage == prop.mainImage;
    }
  }

  /** Saving an untouched edit writes back plain features unchanged. */
  lemma {:induction false} EditThenSaveKeepsFeatures(prop: PropertyRecord, upload: LocalFile -> UploadResult)
    requires prop.features.Some?
    requires forall i :: 0 <= i < |prop.features.value| ==> PlainFeature(prop.features.value[i])
    ensures UntouchedEdit(prop, upload).Some?
    ensures UntouchedEdit(prop, upload).value.payload.features == prop.features.value
  {
    PlanWithoutUploads(EditForm(prop), Some(prop), MainPreviewOf(prop), GalleryUrlsOf(prop), upload);
    FeaturesRoundTrip(prop.features.value);
  }

  /** Saving an untouched edit writes back non-zero room counts unchanged. */
  lemma {:induction false} EditThenSaveKeepsCounts(prop: PropertyRecord, upload: LocalFile -> UploadResult)
    ensures UntouchedEdit(prop, upload).Some?
    ensures prop.bedrooms.Some? && prop.bedrooms.value != 0 ==> UntouchedEdit(prop, upload).value.payload.bedrooms == prop.bedrooms
    ensures prop.bathrooms.Some? && prop.bathrooms.value != 0 ==> UntouchedEdit(prop, upload).value.payload.bathrooms == prop.bathrooms
  {
    PlanWithoutUploads(EditForm(prop), Some(prop), MainPreviewOf(prop), GalleryUrlsOf(prop), upload);
    if prop.bedrooms.Some? && prop.bedrooms.value != 0 {
      Numbers.ParseIntToString(prop.bedrooms.value);
    }
    if prop.bathrooms.Some? && prop.bathrooms.value != 0 {
      Numbers.ParseIntToString(prop.bathrooms.value);
    }
  }

  /** With no file pending and nothing removed, the plan is a write of the
      form, the preview's URL and the existing gallery. */
  lemma {:induction false} PlanWithoutUploads(form: PropertyForm, editing: Option<PropertyRecord>, preview: Option<Preview>,
                           existing: seq<string>, upload: LocalFile -> UploadResult)
    requires preview.Some? ==> preview.value.Remote?
    ensures var mainUrl := if preview.Some? then Some(preview.value.url) else None;
      var payload := BuildPayload(form, mainUrl, editing, existing);
      SubmitPlan(form, editing, None, preview, [], existing, [], upload)
        == Some(if editing.Some? then UpdateProperty(editing.value.id, payload) else InsertProperty(payload))
  {
    WithoutAllSpec(existing, []);
  }

  /** As written, a count of 0 is falsy in `handleEdit`, so the field is left
      empty and saving a row with zero bedrooms untouched writes null
      instead of 0. */
  lemma {:induction false} ZeroBedroomsBecomeNull(prop: PropertyRecord, upload: LocalFile -> UploadResult)
    requires prop.bedrooms == Some(0)
    ensures EditForm(prop).bedrooms == ""
    ensures UntouchedEdit(prop, upload).Some?
    ensures UntouchedEdit(prop, upload).value.payload.bedrooms == None
  {
    PlanWithoutUploads(EditForm(prop), Some(prop), MainPreviewOf(prop), GalleryUrlsOf(prop), upload);
  }

  /** The evidently intended edit text: any stored count, zero included. */
  function CountText(count: Option<int>): string
  {
    if count.Some? then Numbers.IntToString(count.value) else ""
  }

  /** With the corrected edit text every stored count, zero included,
      survives the round trip through the form. */
  lemma {:induction false} CountTextRoundTrip(count: Option<int>)
    ensures CountField(CountText(count)) == count
  {
    if count.Some? {
      Numbers.ParseIntToString(count.value);
    }
  }

  function PropertyId(p: PropertyRecord): int { p.id }

  /** The editor's state. `isLoading`, notifications and `resetKey` are
      left out. */
  class PropertyEditor {
    var properties: seq<PropertyRecord>
    var deletingIds: seq<int>
    var editing: Option<PropertyRecord>
    var form: PropertyForm
    var mainImageFile: Option<LocalFile>
    var mainImagePreview: Option<Preview>
    var galleryFiles: seq<LocalFile>
    var galleryPreviews: seq<Preview>
    var existingGallery: seq<string>
    var removedGalleryImages: seq<string>

    /** The main preview is an object URL only for the chosen file, and no
        removed URL is still listed as existing. */
    predicate Valid()
      reads this
    {
      && MainPreviewTracksFile(mainImageFile, mainImagePreview)
      && (forall u :: u in removedGalleryImages ==> u !in existingGallery)
    }

    /** Every gallery preview of a local file will be uploaded on submit. */
    predicate PreviewsUploaded()
      reads this
    {
      forall p :: p in galleryPreviews && p.Local? ==> p.file in galleryFiles
    }

    /** The state `resetForm` leaves. */
    predicate IsReset()
      reads this
    {
      && editing == None && form == InitialForm
      && mainImageFile == None && mainImagePreview == None
      && galleryFiles == [] && galleryPreviews == [] && existingGallery == [] && removedGalleryImages == []
    }

    constructor ()
      ensures Valid() && IsReset() && PreviewsUploaded()
      ensures properties == [] && deletingIds == []
    {
      properties := [];
      deletingIds := [];
      editing := None;
      form := InitialForm;
      mainImageFile := None;
      mainImagePreview := None;
      galleryFiles := [];
      galleryPreviews := [];
      existingGallery := [];
      removedGalleryImages := [];
    }

    /** `fetchProperties`: the rows replace the list unless the read fails. */
    method LoadProperties(fetched: Option<seq<PropertyRecord>>)
      modifies this
      ensures properties == if fetched.Some? then fetched.value else old(properties)
      ensures deletingIds == old(deletingIds) && editing == old(editing) && form == old(form)
      ensures mainImageFile == old(mainImageFile) && mainImagePreview == old(mainImagePreview)
      ensures galleryFiles == old(galleryFiles) && galleryPreviews == old(galleryPreviews)
      ensures existingGallery == old(existingGallery) && removedGalleryImages == old(removedGalleryImages)
    {
      if fetched.Some? {
        properties := fetched.value;
      }
    }

    /** `resetForm()`. */
    method ResetForm()
      modifies this
      ensures Valid() && IsReset() && PreviewsUploaded()
      ensures properties == old(properties) && deletingIds == old(deletingIds)
    {
      editing := None;
      form := InitialForm;
      mainImageFile := None;
      mainImagePreview := None;
      galleryFiles := [];
      galleryPreviews := [];
      existingGallery := [];
      removedGalleryImages := [];
    }

    /** `handleSubmit`: uploads, then one insert or update; `writeOk` is the
        table's answer. A failed upload returns with nothing changed; a
        failed write changes nothing; a successful one resets the form. */
    method HandleSubmit(upload: LocalFile -> UploadResult, writeOk: bool) returns (outcome: SubmitOutcome, write: Option<PropertyWrite>)
      requires Valid()
      modifies this
      ensures Valid()
      ensures write == SubmitPlan(old(form), old(editing), old(mainImageFile), old(mainImagePreview),
                                  old(galleryFiles), old(existingGallery), old(removedGalleryImages), upload)
      ensures outcome == MainImageUploadFailed <==> old(mainImageFile).Some? && upload(old(mainImageFile).value).UploadFailed?
      ensures outcome == GalleryUploadFailed ==> |old(galleryFiles)| > 0 && UploadAll(old(galleryFiles), upload).None?
      ensures write.None? <==> outcome == MainImageUploadFailed || outcome == GalleryUploadFailed
      ensures outcome == Saved <==> write.Some? && writeOk
      ensures outcome == Saved ==> IsReset()
      ensures outcome != Saved ==> unchanged(this)
      ensures old(PreviewsUploaded()) ==> PreviewsUploaded()
      ensures properties == old(properties) && deletingIds == old(deletingIds)
    {
      ghost var plan := SubmitPlan(form, editing, mainImageFile, mainImagePreview,
                                   galleryFiles, existingGallery, removedGalleryImages, upload);
      var mainImageUrl: Option<string>;
      if mainImageFile.Some? {
        match upload(mainImageFile.value) {
          case UploadFailed =>
            return MainImageUploadFailed, None;
          case Uploaded(u) =>
            mainImageUrl := Some(u);
        }
      } else {
        mainImageUrl := if mainImagePreview.Some? then Some(mainImagePreview.value.url) else None;
      }
      assert UploadMain(mainImageFile, mainImagePreview, upload) == Some(mainImageUrl);
      var galleryUrls := WithoutAll(existingGallery, removedGalleryImages);
      if |galleryFiles| > 0 {
        match UploadAll(galleryFiles, upload) {
          case None =>
            return GalleryUploadFailed, None;
          case Some(newGalleryUrls) =>
            galleryUrls := galleryUrls + newGalleryUrls;
        }
      }
      assert FinalGallery(existingGallery, removedGalleryImages, galleryFiles, upload) == Some(galleryUrls);
      var payload := BuildPayload(form, mainImageUrl, editing, galleryUrls);
      write := Some(if editing.Some? then UpdateProperty(editing.value.id, payload) else InsertProperty(payload));
      assert write == plan;
      if writeOk {
        outcome := Saved;
        ResetForm();
      } else {
        outcome := WriteFailed;
      }
    }

    /** `handleEdit(prop)`: the form, the main preview and both gallery
        lists are seeded from the row; pending gallery files and removals
        are cleared. The chosen main image file is not touched. */
    method HandleEdit(prop: PropertyRecord)
      requires Valid()
      modifies this
      ensures Valid()
      ensures editing == Some(prop) && form == EditForm(prop)
      ensures mainImagePreview == MainPreviewOf(prop) && mainImageFile == old(mainImageFile)
      ensures existingGallery == GalleryUrlsOf(prop) && galleryPreviews == RemotePreviews(GalleryUrlsOf(prop))
      ensures galleryFiles == [] && removedGalleryImages == []
      ensures PreviewsUploaded()
      ensures properties == old(properties) && deletingIds == old(deletingIds)
    {
      editing := Some(prop);
      form := EditForm(prop);
      mainImagePreview := MainPreviewOf(prop);
      existingGallery := GalleryUrlsOf(prop);
      galleryPreviews := RemotePreviews(GalleryUrlsOf(prop));
      galleryFiles := [];
      removedGalleryImages := [];
    }

    /** `removeGalleryImage(url)`: the URL is recorded as removed and
        disappears from the existing list and the previews. */
    method RemoveGalleryImage(url: string)
      requires Valid()
      modifies this
      ensures Valid()
      ensures removedGalleryImages == old(removedGalleryImages) + [url]
      ensures galleryPreviews == Without(old(galleryPreviews), Remote(url))
      ensures existingGallery == Without(old(existingGallery), url)
      ensures old(PreviewsUploaded()) ==> PreviewsUploaded()
      ensures properties == old(properties) && deletingIds == old(deletingIds) && editing == old(editing)
      ensures form == old(form) && mainImageFile == old(mainImageFile) && mainImagePreview == old(mainImagePreview)
      ensures galleryFiles == old(galleryFiles)
    {
      WithoutSpec(existingGallery, url);
      WithoutSpec(galleryPreviews, Remote(url));
      removedGalleryImages := removedGalleryImages + [url];
      galleryPreviews := Without(galleryPreviews, Remote(url));
      existingGallery := Without(existingGallery, url);
    }

    /** The main image input: the chosen file and its object URL, or none. */
    method SelectMainImage(file: Option<LocalFile>)
      requires Valid()
      modifies this
      ensures Valid()
      ensures mainImageFile == file
      ensures mainImagePreview == if file.Some? then Some(Local(file.value)) else None
      ensures properties == old(properties) && deletingIds == old(deletingIds) && editing == old(editing)
      ensures form == old(form) && galleryFiles == old(galleryFiles) && galleryPreviews == old(galleryPreviews)
      ensures existingGallery == old(existingGallery) && removedGalleryImages == old(removedGalleryImages)
    {
      mainImageFile := file;
      mainImagePreview := if file.Some? then Some(Local(file.value)) else None;
    }

    /** The gallery input as written: the new selection replaces the
        pending files while its previews are appended to the old ones. */
    method SelectGalleryFiles(files: seq<LocalFile>)
      requires Valid()
      modifies this
      ensures Valid()
      ensures galleryFiles == files
      ensures galleryPreviews == old(galleryPreviews) + ObjectPreviews(files)
      ensures properties == old(properties) && deletingIds == old(deletingIds) && editing == old(editing)
      ensures form == old(form) && mainImageFile == old(mainImageFile) && mainImagePreview == old(mainImagePreview)
      ensures existingGallery == old(existingGallery) && removedGalleryImages == old(removedGalleryImages)
    {
      galleryFiles := files;
      galleryPreviews := galleryPreviews + ObjectPreviews(files);
    }

    /** The gallery input as evidently intended: files and previews are
        both appended, so every preview shown is uploaded on submit. */
    method SelectGalleryFilesAppending(files: seq<LocalFile>)
      requires Valid()
      modifies this
      ensures Valid()
      ensures galleryFiles == old(galleryFiles) + files
      ensures galleryPreviews == old(galleryPreviews) + ObjectPreviews(files)
      ensures old(PreviewsUploaded()) ==> PreviewsUploaded()
      ensures properties == old(properties) && deletingIds == old(deletingIds) && editing == old(editing)
      ensures form == old(form) && mainImageFile == old(mainImageFile) && mainImagePreview == old(mainImagePreview)
      ensures existingGallery == old(existingGallery) && removedGalleryImages == old(removedGalleryImages)
    {
      galleryFiles := galleryFiles + files;
      galleryPreviews := galleryPreviews + ObjectPreviews(files);
      assert forall p :: p in ObjectPreviews(files) && p.Local? ==> p.file in files;
    }

    /** `handleDelete(prop)` up to the table call: after confirmation the id
        is marked as being deleted. */
    method BeginDelete(prop: PropertyRecord, confirmed: bool)
      modifies this
      ensures deletingIds == if confirmed then old(deletingIds) + [prop.id] else old(deletingIds)
      ensures properties == old(properties) && editing == old(editing) && form == old(form)
      ensures mainImageFile == old(mainImageFile) && mainImagePreview == old(mainImagePreview)
      ensures galleryFiles == old(galleryFiles) && galleryPreviews == old(galleryPreviews)
      ensures existingGallery == old(existingGallery) && removedGalleryImages == old(removedGalleryImages)
    {
      if confirmed {
        deletingIds := deletingIds + [prop.id];
      }
    }

    /** The rest of `handleDelete(prop)`, given whether the row delete
        succeeded: the row leaves the list and an edit of it is abandoned
        only on success; the id leaves the in-flight list either way. */
    method CompleteDelete(prop: PropertyRecord, rowOk: bool)
      requires Valid()
      modifies this
      ensures Valid()
      ensures deletingIds == Without(old(deletingIds), prop.id)
      ensures properties == if rowOk then WithoutId(old(properties), PropertyId, prop.id) else old(properties)
      ensures rowOk && old(editing).Some? && old(editing).value.id == prop.id ==> IsReset()
      ensures !(rowOk && old(editing).Some? && old(editing).value.id == prop.id) ==>
        editing == old(editing) && form == old(form) && galleryFiles == old(galleryFiles) &&
        galleryPreviews == old(galleryPreviews) && existingGallery == old(existingGallery) &&
        removedGalleryImages == old(removedGalleryImages) && mainImageFile == old(mainImageFile) &&
        mainImagePreview == old(mainImagePreview)
    {
      if rowOk {
        properties := WithoutId(properties, PropertyId, prop.id);
        if editing.Some? && editing.value.id == prop.id {
          ResetForm();
        }
      }
      deletingIds := Without(deletingIds, prop.id);
    }
  }

  /** As written, choosing gallery files twice leaves the first choice's
      previews on screen although only the second choice will be uploaded. */
  method SelectTwiceDropsFirstChoice(first: LocalFile, second: LocalFile) returns (previews: seq<Preview>, files: seq<LocalFile>)
    requires first != second
    ensures Local(first) in previews && first !in files
  {
    var editor := new PropertyEditor();
    editor.SelectGalleryFiles([first]);
    editor.SelectGalleryFiles([second]);
    previews := editor.galleryPreviews;
    files := editor.galleryFiles;
    assert previews[0] == Local(first);
  }
}
