/** What the admin editors know about image uploads. `uploadFileToCloudinary`
    posts a file to the upload route and either yields the hosted URL or
    throws; here it is an oracle `upload: LocalFile -> UploadResult`. A
    preview made with `URL.createObjectURL(file)` is an opaque token for
    that file. */
module Uploads {
  import opened Wrappers

  /** A file the browser holds, picked in a file input or dropped. */
  datatype LocalFile = LocalFile(token: nat)

  datatype UploadResult = Uploaded(url: string) | UploadFailed

  /** A gallery or image preview: a hosted URL, or the object URL of a
      local file. */
  datatype Preview = Remote(url: string) | Local(file: LocalFile)

  /** `files.map((f) => URL.createObjectURL(f))`. */
  function ObjectPreviews(files: seq<LocalFile>): (r: seq<Preview>)
    ensures |r| == |files|
    ensures forall i :: 0 <= i < |files| ==> r[i] == Local(files[i])
  {
    seq(|files|, i requires 0 <= i < |files| => Local(files[i]))
  }

  /** Each preview stands for one of the files, every file has one, and
      two file lists give the same previews only when they are the same
      list: a preview is enough to tell which file it shows. */
  lemma {:induction false} ObjectPreviewsIdentifyFiles(a: seq<LocalFile>, b: seq<LocalFile>)
    ensures forall p: Preview :: p in ObjectPreviews(a) <==> p.Local? && p.file in a
    ensures ObjectPreviews(a) == ObjectPreviews(b) <==> a == b
  {
    var pa := ObjectPreviews(a);
    forall p: Preview | p.Local? && p.file in a
      ensures p in pa
    {
      var i :| 0 <= i < |a| && a[i] == p.file;
      assert pa[i] == p;
    }
    if pa == ObjectPreviews(b) {
      forall i | 0 <= i < |a|
        ensures a[i] == b[i]
      {
        assert pa[i].file == a[i];
      }
    }
  }

  /** Previewing two batches one after the other gives the previews of the
      joined batch, as the drop and select handlers rely on. */
  lemma {:induction false} ObjectPreviewsAppend(a: seq<LocalFile>, b: seq<LocalFile>)
    ensures ObjectPreviews(a + b) == ObjectPreviews(a) + ObjectPreviews(b)
  {
    var l, r := ObjectPreviews(a + b), ObjectPreviews(a) + ObjectPreviews(b);
    forall i | 0 <= i < |l|
      ensures l[i] == r[i]
    {
      if i < |a| {
        assert (a + b)[i] == a[i];
      } else {
        assert (a + b)[i] == b[i - |a|];
      }
    }
  }

  /** `urls.map(...)` back to previews. */
  function RemotePreviews(urls: seq<string>): (r: seq<Preview>)
    ensures |r| == |urls|
    ensures forall i :: 0 <= i < |urls| ==> r[i] == Remote(urls[i])
  {
    seq(|urls|, i requires 0 <= i < |urls| => Remote(urls[i]))
  }

  /** `await Promise.all(files.map(uploadFileToCloudinary))`: the URLs in
      file order, or a rejection (`None`) when any upload fails. */
  function UploadAll(files: seq<LocalFile>, upload: LocalFile -> UploadResult): Option<seq<string>>
  {
    if files == [] then Some([])
    else match upload(files[0])
      case UploadFailed => None
      case Uploaded(u) =>
        match UploadAll(files[1..], upload)
        case None => None
        case Some(us) => Some([u] + us)
  }

  /** `Promise.all` succeeds exactly when every upload succeeds, and then
      yields one URL per file, in file order. */
  lemma {:induction false} UploadAllSpec(files: seq<LocalFile>, upload: LocalFile -> UploadResult)
    ensures UploadAll(files, upload).Some? <==> forall i :: 0 <= i < |files| ==> upload(files[i]).Uploaded?
    ensures UploadAll(files, upload).Some? ==>
      |UploadAll(files, upload).value| == |files| &&
      forall i :: 0 <= i < |files| ==> UploadAll(files, upload).value[i] == upload(files[i]).url
  {
    if files != [] {
      UploadAllSpec(files[1..], upload);
      if upload(files[0]).Uploaded? && !(forall i :: 0 <= i < |files[1..]| ==> upload(files[1..][i]).Uploaded?) {
        var i :| 0 <= i < |files[1..]| && !upload(files[1..][i]).Uploaded?;
        assert !upload(files[i + 1]).Uploaded?;
      }
    }
  }

  /** The URLs of the uploads that succeed, in file order: what a loop that
      catches each failure and goes on collects. */
  function Successful(files: seq<LocalFile>, upload: LocalFile -> UploadResult): (r: seq<string>)
    ensures |r| <= |files|
  {
    if files == [] then []
    else
      var init := Successful(files[..|files| - 1], upload);
      match upload(files[|files| - 1])
      case Uploaded(u) => init + [u]
      case UploadFailed => init
  }

  /** A URL is collected exactly when some file's upload yields it; when no
      upload fails, every file contributes its URL, as `Promise.all` would. */
  lemma {:induction false} SuccessfulSpec(files: seq<LocalFile>, upload: LocalFile -> UploadResult)
    ensures forall u :: u in Successful(files, upload) <==>
      exists i :: 0 <= i < |files| && upload(files[i]) == Uploaded(u)
    ensures UploadAll(files, upload).Some? ==> Successful(files, upload) == UploadAll(files, upload).value
  {
    if files != [] {
      var init := files[..|files| - 1];
      var last := files[|files| - 1];
      SuccessfulSpec(init, upload);
      UploadAllSpec(files, upload);
      UploadAllSpec(init, upload);
      forall u
        ensures u in Successful(files, upload) <==> exists i :: 0 <= i < |files| && upload(files[i]) == Uploaded(u)
      {
        if exists i :: 0 <= i < |files| && upload(files[i]) == Uploaded(u) {
          var i :| 0 <= i < |files| && upload(files[i]) == Uploaded(u);
          if i < |init| {
            assert init[i] == files[i];
          }
        }
        if exists i :: 0 <= i < |init| && upload(init[i]) == Uploaded(u) {
          var i :| 0 <= i < |init| && upload(init[i]) == Uploaded(u);
          assert files[i] == init[i];
        }
      }
      if UploadAll(files, upload).Some? {
        assert forall i :: 0 <= i < |init| ==> init[i] == files[i];
        var all := UploadAll(files, upload).value;
        var s := Successful(files, upload);
        assert |s| == |all|;
        forall i | 0 <= i < |all|
          ensures s[i] == all[i]
        {
          if i < |init| {
            assert s[i] == UploadAll(init, upload).value[i];
          }
        }
      }
    }
  }

  /** The sequential loop `for (const gf of files) { try { push(await
      upload(gf)) } catch { notify } }`. */
  method UploadSequentially(files: seq<LocalFile>, upload: LocalFile -> UploadResult) returns (urls: seq<string>)
    ensures urls == Successful(files, upload)
  {
    urls := [];
    var i := 0;
    while i < |files|
      invariant 0 <= i <= |files|
      invariant urls == Successful(files[..i], upload)
    {
      assert files[..i + 1][..i] == files[..i];
      match upload(files[i]) {
        case Uploaded(u) => urls := urls + [u];
        case UploadFailed =>
      }
      i := i + 1;
    }
    assert files[..i] == files;
  }
}
