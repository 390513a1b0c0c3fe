# A verified model of the site's admin and listing logic

The repository is a Next.js marketing site for a real-estate and
construction business. Its pages are mostly presentation. Under the
presentation sit a few pieces of deterministic logic, and this project
models them in Dafny and proves what they promise:

- the slug generator shared by the property and blog editors;
- the public-id derivation and gallery loop of the image-delete route;
- the three admin editors: properties, blog posts and projects.
  - Each keeps existing gallery URLs, pending files and previews.
  - Each assembles a final gallery from upload results.
  - Each decides whether to abort before writing a row.
  - Each marks a row as in flight while it is being deleted.
- the public blog index: featured post, search and category filter, page
  count and page slice, plus its pagination control;
- the public property listing: location and type options, filters and
  the default newest-first order;
- the admin route guard and the FAQ accordion.

Every network call is an input, never a computation:

- a Cloudinary upload is a function `upload: LocalFile -> UploadResult`;
- `destroy` is a function `string -> DestroyOutcome`;
- a Supabase write is a success flag or the returned rows;
- a Supabase read is an `Option` of the rows.

An object URL made by `URL.createObjectURL` is the token `Local(file)`.

The editors change state step by step, so each is a class. Its fields
mirror the component's `useState` variables, and its methods are the event
handlers. An `async` handler runs as one atomic method. The delete
handlers are split at their first network call (`BeginDelete` /
`CompleteDelete`), so the in-flight id list is visible between the two.
The pure pipelines are functions, with lemmas that state their properties.

The model follows the code where the design intent differs from it:

- The blog editor resets its form, files and gallery after every attempted
  write, even a failed one, but keeps `editId` after a failed update.
- The blog and project editors do not abort when a gallery upload fails.
  - The blog editor writes an empty gallery.
  - The project editor writes the URLs that did upload.
  - Only the property editor aborts.
- The project editor replaces the saved gallery with the new uploads
  whenever new gallery files are pending.

Modules: `Wrappers`, `Text` (the string built-ins), `Lists` (the array
filters and `Set` dedup), `Uploads`, `Numbers` (`parseInt` and
`toString`), `Slug`, `DeleteImage`, `Middleware`, `Faq`, `Pagination`,
`BlogIndex`, `PropertyListing`, `PropertyEditor`, `BlogEditor` and
`ProjectEditor`.

## Model

| member | source | states |
|---|---|---|
| Text.LowerStringFixedPoints | app/blog/page.jsx:50-52 | `toLowerCase` leaves no ASCII capital, is idempotent, and leaves a string unchanged exactly when it holds no ASCII capital |
| Text.LowerStringAppend | app/blog/page.jsx:50-52 | lower-casing acts character by character: the lower-cased concatenation is the concatenation of the lower-cased parts |
| Text.TrimStart | app/blog/page.jsx:55 | drops exactly the leading JavaScript white space: the result is a suffix starting with a non-space, and every dropped character is white space |
| Text.TrimEnd | app/blog/page.jsx:55 | drops exactly the trailing JavaScript white space: the result is a prefix ending in a non-space, and every dropped character is white space |
| Text.Split | app/admin/buy-sell/page.js:186 | `split(",")` yields at least one piece and no piece contains the separator |
| Text.FirstSegment | app/buy-sell/page.js:37 | `split(",")[0]` is a comma-free prefix of the address, followed by a comma whenever it is shorter than the address |
| Text.SplitAfterHead | app/admin/buy-sell/page.js:186 | splitting a comma-free head, a comma and a tail gives the head followed by the split of the tail |
| Slug.CollapseRuns | app/admin/buy-sell/page.js:46 | `replace(/[^a-z0-9]+/g, "-")` leaves only `a-z`, `0-9` and `-`, never two hyphens together, keeps the letters and digits in order, is empty only for empty input, and starts with a hyphen exactly when the input starts outside `[a-z0-9]`; CollapseRunsAtSeparator states the run-by-run replacement |
| Slug.CollapseRunsAtSeparator | app/admin/buy-sell/page.js:46 | a word, then a whole run of characters outside `[a-z0-9]`, then text starting a new word: the word is kept and the whole run becomes exactly one hyphen |
| Slug.StripEdgeHyphens | app/admin/buy-sell/page.js:47 | `replace(/(^-\|-$)/g, "")` gives a substring with no hyphen at either edge, at most two characters shorter, keeping every non-hyphen |
| Slug.GenerateSlug | app/admin/buy-sell/page.js:43-48 | the slug holds only `a-z`, `0-9` and `-`, never `--`, and never starts or ends with `-`; SlugDropsLeadingRun, SlugPrependsWord and SlugDropsTrailingRun state what it is word by word, from a leading run to a trailing one |
| Slug.SlugKeepsLettersAndDigits | app/admin/buy-sell/page.js:43-48 | the slug's letters and digits are exactly those of the lower-cased title, in order |
| Slug.SlugEmptyIff | app/admin/blog/page.jsx:38-43 | the slug is empty exactly when the lower-cased title has no `a-z` or `0-9` character |
| Slug.CollapseOfSlugForm | app/admin/buy-sell/page.js:46 | collapsing leaves a string already in slug form unchanged |
| Slug.SlugIdempotent | app/admin/blog/page.jsx:38-43 | slugging a slug gives it back |
| Slug.SlugOfPlainTitle | app/admin/buy-sell/page.js:43-48 | a title whose lower-cased characters are all `a-z` or `0-9` becomes its lower-cased self |
| Slug.SlugPrependsWord | app/admin/buy-sell/page.js:43-48 | a title word, a run of non-letters and non-digits, then a new word: the slug is the lower-cased word, one hyphen, and the slug of the rest |
| Slug.SlugDropsTrailingRun | app/admin/buy-sell/page.js:43-48 | a word followed only by a run of non-letters and non-digits slugs to the lower-cased word: the trailing hyphen is stripped |
| Slug.SlugDropsLeadingRun | app/admin/buy-sell/page.js:43-48 | a title that opens with a run of non-letters and non-digits (a typed leading space, say) slugs like the title without that run: the leading hyphen is stripped |
| Slug.SlugOfPaddedWord | app/admin/buy-sell/page.js:43-48 | one word with a run of non-letters and non-digits on each side slugs to the lower-cased word alone |
| Slug.SlugOfThreeWordTitle | app/admin/buy-sell/page.js:43-48 | a title of three words each followed by a separator run, such as `"My Great Post!!"`, slugs to the three lower-cased words joined by single hyphens (`"my-great-post"`) |
| Slug.MyGreatPost | app/admin/buy-sell/page.js:43-48 | the title `"My Great Post!!"` slugs to `"my-great-post"` |
| Slug.LeadingTitle | app/admin/buy-sell/page.js:43-48 | the title `"  --Leading--"` slugs to `"leading"` |
| Lists.WithoutSpec | app/admin/buy-sell/page.js:286-287 | filtering out a value removes every occurrence and keeps every other value |
| Lists.WithoutAllSpec | app/admin/buy-sell/page.js:158-160 | filtering by `!removed.includes(url)` keeps exactly the values not removed, and everything when nothing was removed |
| Lists.RemoveAt | app/admin/projects/page.js:597-603 | `filter((_, i) => i !== index)` drops the entry at `index` and shifts the rest down; an index out of range changes nothing |
| Lists.WithoutIdSpec | app/admin/projects/page.js:328 | filtering by `p.id !== id` keeps exactly the rows with another id |
| Lists.DedupSpec | app/buy-sell/page.js:37 | `[...new Set(xs)]` holds each value of `xs` exactly once, ordered by first appearance |
| Uploads.ObjectPreviewsIdentifyFiles | app/admin/projects/page.js:580-582 | the previews are exactly the local previews of the selected files, and two selections give the same previews exactly when they are the same selection |
| Uploads.ObjectPreviewsAppend | app/admin/projects/page.js:333-341 | previews of files added to a selection are the old previews followed by those of the new files |
| Uploads.UploadAllSpec | app/admin/blog/page.jsx:150-151 | `Promise.all` of the uploads succeeds exactly when every upload succeeds, and then yields one URL per file in file order |
| Uploads.SuccessfulSpec | app/admin/projects/page.js:182-193 | the sequential loop collects a URL exactly when some file's upload yields it, and everything `Promise.all` would when nothing fails |
| Uploads.UploadSequentially | app/admin/projects/page.js:182-193 | the loop that catches each failure returns the successful URLs in file order |
| Numbers.DigitValue | app/admin/buy-sell/page.js:181 | a character's digit value is below 36, and below 10 exactly for `0`-`9` |
| Numbers.DigitRun | app/admin/buy-sell/page.js:181 | the run of leading digits is maximal |
| Numbers.NatToString | app/admin/buy-sell/page.js:239 | `toString` of a count is a non-empty string of decimal digits |
| Numbers.NatToStringValue | app/admin/buy-sell/page.js:239 | the digits of `toString(n)` denote `n` |
| Numbers.ParseIntToString | app/admin/buy-sell/page.js:181-182 | `parseInt(n.toString())` is `n` for every integer |
| Numbers.ParseIgnoresSuffix | app/admin/buy-sell/page.js:181-182 | `parseInt` stops at the first non-digit, so a count followed by any text not starting with a digit parses as the count; the only exception is `x` or `X` after a lone `0`, which `parseInt` reads as a hexadecimal prefix |
| Numbers.CountWithUnit | app/admin/buy-sell/page.js:181-182 | a count typed with a unit, `"3br"`, reads as 3 |
| Numbers.ParseBlankIsNaN | app/admin/buy-sell/page.js:181-182 | a blank field parses as NaN |
| DeleteImage.IndexOfFromSpec | app/api/delete-image/route.js:10 | the marker search finds the first occurrence at or after the start, or reports that there is none |
| DeleteImage.UploadSegmentSpec | app/api/delete-image/route.js:10-12 | `split("/upload/")[1]` exists exactly when the URL holds `/upload/`, and is the text between the first marker and the next marker or the end |
| DeleteImage.LastIndexOfSpec | app/api/delete-image/route.js:13 | `lastIndexOf(".")` finds the last dot, or reports that there is none |
| DeleteImage.PublicIdSpec | app/api/delete-image/route.js:9-17 | the id is null exactly without `/upload/`; otherwise it is the segment when that has no dot, and else the segment cut just before its last dot |
| DeleteImage.SegmentOfBuiltUrl | app/api/delete-image/route.js:10-12 | for `<base>/upload/<name>` with no other marker, the segment is `<name>` |
| DeleteImage.PublicIdRoundTrip | app/api/delete-image/route.js:9-17 | the id of `<base>/upload/<id>.<ext>` is `<id>` when `<ext>` holds no dot |
| DeleteImage.DestroyTargetsExactly | app/api/delete-image/route.js:26-31 | `destroy` is aimed at exactly the gallery URLs with a non-null, non-empty id |
| DeleteImage.DestroyGallery | app/api/delete-image/route.js:24-33 | the loop calls `destroy` on a prefix of the targets in order, on all of them when none throws (and then returns their results), and stops at the first throw |
| DeleteImage.Post | app/api/delete-image/route.js:19-43 | an unreadable body gives 500; no `gallery` array gives 200 with empty results; otherwise 200 with one result per target exactly when no `destroy` throws, and 500 after the first throw |
| DeleteImage.BlogDeleteDestroysNothing | app/api/delete-image/route.js:21 | as written, the blog editor's request `{ image }` destroys nothing and answers 200 |
| DeleteImage.ImageIsDestroyedWhenRead | app/api/delete-image/route.js:21 | corrected: when `image` is read too, its id is destroyed along with every gallery id |
| Middleware.AnonymousAdminRedirected | middleware.js:13-19 | without a session the guard function sends every path that starts with `/admin`, other than `/admin/login`, to `/admin/login` |
| Middleware.SessionPassesThrough | middleware.js:14 | with a session no request is redirected |
| Middleware.RedirectTargetPasses | middleware.js:16-18 | the login page itself is never redirected, so a redirect cannot loop |
| Middleware.PublicPagesPass | middleware.js:15 | paths outside `/admin` always pass through |
| Middleware.AnonymousAdminPagesRedirected | middleware.js:13-27 | on the site, without a session, `/admin` and every page below `/admin/` other than the login page are redirected to `/admin/login` |
| Middleware.RespondRedirectsExactly | middleware.js:13-27 | the site redirects exactly the session-less requests to paths the matcher `/admin/:path*` selects, other than `/admin/login`, and always to `/admin/login` |
| Middleware.AdministratorNotGuarded | middleware.js:25-27 | `/administrator` is never matched, so it is served whatever the session, though the guard function alone would redirect it |
| Faq.FaqSection.constructor | app/components/FAQSection.js:34 | initially no question is open |
| Faq.FaqSection.ToggleFaq | app/components/FAQSection.js:36-38 | toggling the open question closes all; toggling another opens exactly that one |
| Faq.ToggleTwice | app/components/FAQSection.js:34-38 | toggling twice restores the state exactly when nothing or that question was open, and otherwise leaves all closed |
| Pagination.PageNumbersAscending | app/blog/components/Pagination.jsx:4 | `pages` is strictly ascending and holds exactly `1..totalPages` |
| Pagination.ClicksReachEveryPage | app/blog/components/Pagination.jsx:4-16 | nothing renders exactly when `totalPages <= 1`; otherwise one button per page in order, every page from 1 to `totalPages` and no other is reachable by a click, each button asks for its own page, and a button is active exactly when its click target is the current page |
| Pagination.OneActiveButton | app/blog/components/Pagination.jsx:13 | at most one button is active, and one is exactly when the current page is listed |
| BlogIndex.FeaturedPostIsFirst | app/blog/page.jsx:46 | `find` gives nothing exactly when no post is featured, and otherwise the first featured post |
| BlogIndex.FilteredMembers | app/blog/page.jsx:48-58 | the filtered list holds exactly the posts that are not featured and match the search and category |
| BlogIndex.FilteredAppend | app/blog/page.jsx:48-58 | filtering distributes over concatenation, so the fetched order is kept |
| BlogIndex.FeaturedNotListed | app/blog/page.jsx:49 | the featured post never appears in the list |
| BlogIndex.NoFilterListsAllOthers | app/blog/page.jsx:50-56 | with empty search and category every non-featured post is listed |
| BlogIndex.SearchIgnoresCase | app/blog/page.jsx:50-52 | the search result does not depend on the query's letter case |
| BlogIndex.TotalPagesIsCeiling | app/blog/page.jsx:60 | `totalPages` is the ceiling of the count over 6 |
| BlogIndex.DisplayedPostsSpec | app/blog/page.jsx:61-65 | the page is the slice `[(page-1)*6, page*6)` clipped to the list, has at most 6 posts, and is non-empty exactly for pages up to `totalPages` |
| BlogIndex.PagesUpToIsPrefix | app/blog/page.jsx:61-65 | the first `k` pages, concatenated, are the list's prefix of length `6k` |
| BlogIndex.PagesPartitionList | app/blog/page.jsx:60-65 | pages `1..totalPages`, concatenated, are exactly the filtered list |
| BlogIndex.BlogIndexPage.HandleSearch | app/blog/page.jsx:67-70 | a new query resets to page 1, which shows the first six matches |
| BlogIndex.BlogIndexPage.HandleCategoryChange | app/blog/page.jsx:72-75 | a new category resets to page 1, which shows the first six matches |
| BlogIndex.BlogIndexPage.OnPageChange | app/blog/page.jsx:108-112 | clicking a page button moves to that page, which then shows posts and whose button is active |
| PropertyListing.LocationOptionsSpec | app/buy-sell/page.js:35-38 | the location options are "All" then each location label (empty first segment shown as "Unknown") exactly once |
| PropertyListing.TypeOptionsSpec | app/buy-sell/page.js:39-42 | the type options are "All" then each type label (missing type shown as "Other") exactly once |
| PropertyListing.FilterListedMembers | app/buy-sell/page.js:44-51 | the filters keep exactly the properties whose title contains the search case-insensitively and whose raw location and type equal the selections unless "All" |
| PropertyListing.InsertNewestFirst | app/buy-sell/page.js:63 | inserting into an id-descending list keeps it id-descending and adds exactly that property |
| PropertyListing.SortNewestFirst | app/buy-sell/page.js:52-63 | the default order is id-descending and a permutation of its input |
| PropertyListing.FilteredSpec | app/buy-sell/page.js:44-63 | the listing holds exactly the passing properties, each as often as fetched, ordered by id descending |
| PropertyListing.UnknownOptionMatchesNothing | app/buy-sell/page.js:37 | as written, the offered "Unknown" location lists nothing for a property whose address starts with a comma |
| PropertyListing.OtherOptionMatchesNothing | app/buy-sell/page.js:41 | as written, the offered "Other" type lists nothing for an untyped property |
| PropertyListing.FilterByLabelMembers | app/buy-sell/page.js:44-51 | corrected filters keep exactly the properties whose labels match the selections |
| PropertyListing.EveryOptionListsSomething | app/buy-sell/page.js:35-51 | with the corrected filters every offered location and type lists at least one property |
| PropertyEditor.PayloadSlugSpec | app/admin/buy-sell/page.js:176 | an entered slug is kept; otherwise the slug is `generateSlug(title)`, in slug form; it is empty only when both give nothing |
| PropertyEditor.TrimAllAfterBlank | app/admin/buy-sell/page.js:186-187 | a blank at the head of the features text (the space of a `", "` separator) does not change the trimmed pieces |
| PropertyEditor.SplitWithoutSeparator | app/admin/buy-sell/page.js:186 | a comma-free text splits into itself |
| PropertyEditor.FeaturesRoundTrip | app/admin/buy-sell/page.js:185-188 | features joined into the edit form (`join(", ")`) come back unchanged on submit when each is non-empty, comma-free and trimmed |
| PropertyEditor.NewImagesRoundTrip | app/admin/buy-sell/page.js:195 | the written images give back exactly the gallery URLs, in order, and every one has an empty `public_id` |
| PropertyEditor.SubmitAbortsOnUploadFailure | app/admin/buy-sell/page.js:145-172 | nothing is written exactly when the chosen main image or any pending gallery file fails to upload |
| PropertyEditor.SubmitGallery | app/admin/buy-sell/page.js:157-172 | the written gallery is the existing URLs not removed, in order, followed by the new uploads in file order |
| PropertyEditor.SubmitMainImage | app/admin/buy-sell/page.js:145-155 | the main image is the upload, else the current preview URL, else the edited row's image, else null |
| PropertyEditor.EditThenSaveTargetsRow | app/admin/buy-sell/page.js:199-204 | saving an untouched edit updates that row and keeps its slug |
| PropertyEditor.EditThenSaveKeepsGallery | app/admin/buy-sell/page.js:249-252 | saving an untouched edit writes back the row's gallery URLs in order |
| PropertyEditor.EditThenSaveKeepsMainImage | app/admin/buy-sell/page.js:248 | saving an untouched edit keeps the row's main image URL |
| PropertyEditor.EditThenSaveKeepsFeatures | app/admin/buy-sell/page.js:242 | saving an untouched edit writes back plain features unchanged |
| PropertyEditor.EditThenSaveKeepsCounts | app/admin/buy-sell/page.js:239-240 | saving an untouched edit keeps non-zero room counts |
| PropertyEditor.PlanWithoutUploads | app/admin/buy-sell/page.js:139-224 | with no file pending and nothing removed, the plan writes the payload built from the form, the preview URL and the existing gallery |
| PropertyEditor.ZeroBedroomsBecomeNull | app/admin/buy-sell/page.js:239 | as written, a row with 0 bedrooms shows "" in the form and is saved back with null bedrooms |
| PropertyEditor.CountTextRoundTrip | app/admin/buy-sell/page.js:181-182 | corrected: every stored count, zero included, survives the edit form |
| PropertyEditor.PropertyEditor.ResetForm | app/admin/buy-sell/page.js:291-301 | `resetForm` empties the form, files, previews and galleries and leaves edit mode |
| PropertyEditor.PropertyEditor.HandleSubmit | app/admin/buy-sell/page.js:139-228 | the write is the submit plan; an upload failure writes nothing; only a successful write resets; a failed one changes nothing |
| PropertyEditor.PropertyEditor.HandleEdit | app/admin/buy-sell/page.js:231-253 | edit mode with the row's form, main preview and gallery; pending gallery files and removals cleared |
| PropertyEditor.PropertyEditor.RemoveGalleryImage | app/admin/buy-sell/page.js:284-288 | the URL is recorded as removed and leaves the existing gallery and the previews; nothing else changes |
| PropertyEditor.PropertyEditor.SelectMainImage | app/admin/buy-sell/page.js:548-554 | the chosen file and its preview, or neither |
| PropertyEditor.PropertyEditor.SelectGalleryFiles | app/admin/buy-sell/page.js:580-585 | as written, a selection replaces the pending files but appends to the previews |
| PropertyEditor.PropertyEditor.SelectGalleryFilesAppending | app/admin/buy-sell/page.js:580-585 | corrected: a selection appends to both, so every local preview will be uploaded |
| PropertyEditor.SelectTwiceDropsFirstChoice | app/admin/buy-sell/page.js:580-585 | as written, after two selections the first file still shows a preview but will not be uploaded |
| PropertyEditor.PropertyEditor.BeginDelete | app/admin/buy-sell/page.js:256-258 | after confirmation the id joins the in-flight list |
| PropertyEditor.PropertyEditor.CompleteDelete | app/admin/buy-sell/page.js:259-280 | the row leaves the list only when deleted, the form resets when it was being edited, and the id leaves the in-flight list on every path |
| BlogEditor.SubmitAbortsOnCoverOrAvatar | app/admin/blog/page.jsx:134-175 | nothing is written exactly when the chosen cover or avatar fails to upload; a gallery failure never stops the write |
| BlogEditor.SubmitGallery | app/admin/blog/page.jsx:146-158 | with new files the gallery is their URLs in order when all upload and empty otherwise; without, the existing gallery on edit and empty on create |
| BlogEditor.SubmitAvatar | app/admin/blog/page.jsx:160-175 | the avatar is the uploaded file, else the entered URL when not blank, else the placeholder; without a file it is never blank |
| BlogEditor.SubmitCoverSlugLikes | app/admin/blog/page.jsx:177-218 | the cover is the upload, else kept on update and "" on insert; the slug is regenerated in slug form; `likes` is 0 exactly on insert |
| BlogEditor.BlogEditor.HandleSubmit | app/admin/blog/page.jsx:130-240 | the write is the submit plan; a failed cover or avatar upload changes nothing; otherwise the form, files and gallery are reset whatever the write's result, and `editId` is cleared only by a successful update |
| BlogEditor.BlogEditor.HandleEdit | app/admin/blog/page.jsx:243-259 | edit mode with the post's form, previews and gallery; chosen files stay |
| BlogEditor.BlogEditor.CancelEdit | app/admin/blog/page.jsx:316-331 | back to create mode with an empty form; pending files and gallery previews stay |
| BlogEditor.BlogEditor.SelectCover | app/admin/blog/page.jsx:449-454 | the chosen cover file and its preview, or neither |
| BlogEditor.BlogEditor.SelectAvatar | app/admin/blog/page.jsx:474-477 | the chosen avatar file and its preview, or neither |
| BlogEditor.BlogEditor.SelectGalleryFiles | app/admin/blog/page.jsx:499-503 | a selection replaces both the files and the previews |
| BlogEditor.BlogEditor.BeginDelete | app/admin/blog/page.jsx:261-269 | after confirmation the id joins the in-flight list and the request carries only the cover image; the form, its files and previews and the post list are unchanged |
| BlogEditor.BlogEditor.CompleteDelete | app/admin/blog/page.jsx:270-288 | a failed image request skips the row delete; the post leaves the list only when deleted; the id leaves the in-flight list on every path; the form's files, previews and gallery are unchanged |
| ProjectEditor.GroupKey | app/admin/projects/page.js:92 | a project's group key is its category, or "others" when empty, and never empty |
| ProjectEditor.InGroupMembers | app/admin/projects/page.js:91-96 | a group holds exactly the projects with its key |
| ProjectEditor.InGroupAppend | app/admin/projects/page.js:91-96 | grouping distributes over concatenation, so projects keep their list order within a group |
| ProjectEditor.GroupsPartition | app/admin/projects/page.js:91-96 | every project is in the group of its own key and in no other |
| ProjectEditor.GroupKeysSpec | app/admin/projects/page.js:91-96 | the group keys (the order in which the category sections are listed) are the projects' keys, each once, in order of first appearance |
| ProjectEditor.GroupProjects | app/admin/projects/page.js:91-96 | the reduce builds one group per key holding that key's projects in order, with keys in insertion order |
| ProjectEditor.CreatePlanSpec | app/admin/projects/page.js:166-211 | only a failed main image upload stops the insert; the row is tagged with the service; its gallery holds the successful uploads |
| ProjectEditor.EditPlanSpec | app/admin/projects/page.js:249-281 | only a failed main image upload stops the update; the image is the upload else the preview; with new files the gallery is only their successful uploads, else the previews |
| ProjectEditor.ReplaceByIdSpec | app/admin/projects/page.js:291-293 | the list keeps its length and order and the returned row replaces exactly the projects with the edited id |
| ProjectEditor.AlignedGalleryIsHosted | app/admin/projects/page.js:263-275 | with aligned lists only hosted URLs are saved |
| ProjectEditor.AlignedRemoval | app/admin/projects/page.js:885-891 | corrected removal keeps the edit lists aligned |
| ProjectEditor.ProjectsAdmin.SelectService | app/admin/projects/page.js:98-116 | a service button selects the service and shows its fetched projects unless the read fails |
| ProjectEditor.ProjectsAdmin.HandleSubmit | app/admin/projects/page.js:166-247 | the insert is the create plan; only a successful insert resets the create form and shows the re-read list; a failure changes nothing |
| ProjectEditor.ProjectsAdmin.ResetCreateForm | app/admin/projects/page.js:216-232 | after an insert the create form is back to its initial values (category "current") with no file, preview or gallery, the lists stay aligned, and the edit side is untouched |
| ProjectEditor.ProjectsAdmin.StartEdit | app/admin/projects/page.js:118-137 | the edit form is seeded from the project (category "current" when empty), with its image and gallery as previews and no pending files |
| ProjectEditor.ProjectsAdmin.CancelEdit | app/admin/projects/page.js:911 | Cancel only forgets the project being edited |
| ProjectEditor.ProjectsAdmin.HandleEditSubmit | app/admin/projects/page.js:249-296 | the update is the edit plan; it fails on an error message or no or empty rows; on success the first row replaces the project and the edit form closes; the pending edit file and its preview are kept on every path |
| ProjectEditor.ProjectsAdmin.SelectMainImage | app/admin/projects/page.js:543-548 | the chosen main file and its preview, or neither |
| ProjectEditor.ProjectsAdmin.AddGalleryFiles | app/admin/projects/page.js:333-341 | a drop (and the gallery file input, which does the same) appends the files and one preview per file, in order |
| ProjectEditor.ProjectsAdmin.RemoveGalleryImage | app/admin/projects/page.js:597-603 | removing index `i` removes index `i` from both create lists, which stay in step |
| ProjectEditor.ProjectsAdmin.SelectEditMainImage | app/admin/projects/page.js:819-826 | a selection shows its preview; no selection clears the file and keeps the preview |
| ProjectEditor.ProjectsAdmin.AddEditGalleryFiles | app/admin/projects/page.js:843-872 | drop and select append to both edit lists and keep them aligned |
| ProjectEditor.ProjectsAdmin.RemoveEditGalleryImage | app/admin/projects/page.js:885-891 | as written, removing index `i` removes index `i` from both edit lists |
| ProjectEditor.ProjectsAdmin.RemoveEditGalleryImageAligned | app/admin/projects/page.js:885-891 | corrected: the preview goes, and its file goes only if it shows one |
| ProjectEditor.ProjectsAdmin.BeginDelete | app/admin/projects/page.js:298-308 | after confirmation the id joins the in-flight list and the request carries the image and the gallery (`[]` when absent) |
| ProjectEditor.ProjectsAdmin.CompleteDelete | app/admin/projects/page.js:309-330 | a failed image request skips the row delete; the project leaves the list only when deleted; the id leaves the in-flight list on every path |
| ProjectEditor.RemovingHostedImageSavesObjectUrl | app/admin/projects/page.js:885-891 | as written, removing a hosted image after adding a file saves the file's object URL as the gallery |
| ProjectEditor.RemovingHostedImageKeepsFile | app/admin/projects/page.js:885-891 | corrected: the same steps keep the file and save only hosted URLs |

## Left out

- Network calls are inputs: Cloudinary `upload` and `destroy`, every
  Supabase read and write, and `fetch` to the API routes. The upload route
  (`app/api/upload/route.js`) is not part of this model.
- Loading and uploading flags, notifications and their 4-second timers,
  `resetKey`, animations, the carousel and counter timers, date formatting
  and the reading-progress ratio are left out: they are presentation and timing.
- The price sort of the public listing (app/buy-sell/page.js:52-62) is left
  out: it uses `parseFloat` and floating subtraction. Only the default
  order is modelled.
- Letter case is modelled for ASCII only: `toLowerCase` of other
  characters is the identity here.
- `URL.createObjectURL` values are the tokens `Local(file)`. A file input's
  selection is a sequence of tokens.
- Concurrency is left out. An `async` handler is one atomic step; only the
  deletes are split at their first network call. Interleavings of two
  handlers, and the refreshes that are not awaited, are not modelled: the
  reload after a property save and the `fetchBlogPosts()` after a blog
  save (app/admin/blog/page.jsx:205, 216). BlogEditor.HandleSubmit leaves
  `blogPosts` as it was; the reloaded list is a later, separate step.
- `Promise.all` is its ordered result: all URLs in file order, or a failure.
- PropertyEditor.CountField: `parseInt` is modelled on exact integers. A
  NaN is sent as null, as `JSON.stringify` does. Float rounding of very
  long digit strings is not modelled.
- The route matcher is modelled for its one pattern, `/admin/:path*`, on
  the decoded path. Next.js path normalisation (trailing slashes, encoded
  characters, the `_next` internals) is not modelled.
- Row ids are positive integers, so a truthiness test on an id (`if
  (editId)`) is a presence test.
- PropertyListing.SortNewestFirst: two rows with the same id may come out
  in either order. The stability of `Array.prototype.sort` is not modelled.
- The fallback heading id of the blog's table of contents uses the same
  rule as `generateSlug`. It needs `DOMParser`, which is not part of this
  model.
- The login page, the comment, related-post and sidebar components, and
  the contact page are left out: they are thin wrappers over
  authentication, queries and `window.open`.

## Findings

| source | as written | input that shows it | evidently intended | confidence | as-written member | corrected member |
|---|---|---|---|---|---|---|
| app/api/delete-image/route.js:21 | the route reads only `gallery` and ignores the `image` both editors send | the blog editor deletes a post whose cover is `https://res.cloudinary.com/x/image/upload/v1/a.jpg` | the cover or main image is destroyed too | not executed | DeleteImage.BlogDeleteDestroysNothing | DeleteImage.ImageIsDestroyedWhenRead |
| app/buy-sell/page.js:37, 41, 47-51 | the options show "Unknown" and "Other", but the filters compare raw values | a property with address ", Main Road", or with no type, and that option selected | selecting an offered option lists the properties it stands for | not executed | PropertyListing.UnknownOptionMatchesNothing | PropertyListing.EveryOptionListsSomething |
| app/admin/buy-sell/page.js:239-240 | a stored count of 0 is falsy, so the edit form shows "" and saving writes null | edit and save a property with `bedrooms: 0` | 0 bedrooms survives an edit | not executed | PropertyEditor.ZeroBedroomsBecomeNull | PropertyEditor.CountTextRoundTrip |
| app/admin/buy-sell/page.js:580-585 | a gallery selection replaces the files but appends to the previews | select file A, then file B | both selections are shown and uploaded | not executed | PropertyEditor.SelectTwiceDropsFirstChoice | PropertyEditor.PropertyEditor.SelectGalleryFilesAppending |
| app/admin/projects/page.js:885-891 | removing preview `i` removes file `i`, but the previews start with the hosted images, which have no file | edit a project with one hosted image, add file F, remove the hosted image's preview: F is dropped and its object URL is saved as the gallery | the removed preview's own file is removed | not executed | ProjectEditor.RemovingHostedImageSavesObjectUrl | ProjectEditor.ProjectsAdmin.RemoveEditGalleryImageAligned |
