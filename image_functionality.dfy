/** Image bookkeeping: deciding which image records a monument form creates
    (one per uploaded file, a placeholder, or none), creating them, linking
    them to their monument by title and deleting them with it. The hosting
    service is a function from file bytes to the URL it serves the file at. */
module ImageFunctionality {
  import opened Wrappers
  import opened Tables
  import opened Records
  import opened Store

  /** A file field from a multipart form: its bytes and the browser's file name. */
  datatype UploadedFile = UploadedFile(data: seq<bv8>, filename: string)

  /** The `imageUpload` field: absent, the empty string, one file, or an array of files. */
  datatype ImageUpload = Absent | Blank | Single(file: UploadedFile) | Multiple(files: seq<UploadedFile>)

  /** Which records an image operation writes, or that it throws a TypeError
      (reading `hapi.filename` of something that is not a file). */
  datatype ImagePlan = Crash | EachFile(files: seq<UploadedFile>) | OneFile(file: UploadedFile) | Placeholder | NoImages

  /** `{ imageIds, imageTitles }`. */
  datatype ImageResult = ImageResult(imageIds: seq<Id>, imageTitles: seq<string>)

  const DefaultImageTitlePrefix: string := "pointOfInterestDefaultImage "
  const DefaultImageUrl: string := "/src/assets/pointOfInterestDefaultImage.png"

  /** `addMonumentImages(image, data)`: `image` is the upload, `data` the form payload holding it too. */
  function AddImagesPlan(image: ImageUpload, payloadUpload: ImageUpload): (r: ImagePlan)
    ensures r.EachFile? <==> image.Multiple? && |image.files| > 1
    ensures r.EachFile? ==> r.files == image.files
    ensures image.Absent? ==> r.Crash?
    ensures r.Placeholder? <==>
      !image.Absent? && !(image.Multiple? && |image.files| > 1)
      && (payloadUpload.Blank? || (payloadUpload.Single? && payloadUpload.file.filename == ""))
    ensures r.OneFile? <==>
      !(image.Multiple? && |image.files| > 1) && payloadUpload.Single? && payloadUpload.file.filename != "" && image.Single?
    ensures r.OneFile? ==> r.file == image.file
    ensures !r.NoImages?
  {
    if image.Absent? then Crash
    else if image.Multiple? && |image.files| > 1 then EachFile(image.files)
    else match payloadUpload
      case Absent => Crash
      case Blank => Placeholder
      case Multiple(_) => Crash
      case Single(p) =>
        if |p.filename| == 0 then Placeholder
        else if image.Single? then OneFile(image.file)
        else Crash
  }

  /** `editMonumentImages(image, apiCallNoImages)`. */
  function EditImagesPlan(image: ImageUpload, apiCallNoImages: bool): (r: ImagePlan)
    ensures r.EachFile? <==> image.Multiple? && |image.files| > 1
    ensures r.EachFile? ==> r.files == image.files
    ensures r.Crash? <==> image.Absent? || image.Blank? || (image.Multiple? && |image.files| <= 1)
    ensures r.OneFile? <==> image.Single? && image.file.filename != ""
    ensures r.OneFile? ==> r.file == image.file
    ensures r.Placeholder? <==> image.Single? && image.file.filename == "" && apiCallNoImages
    ensures r.NoImages? <==> image.Single? && image.file.filename == "" && !apiCallNoImages
  {
    match image
    case Multiple(fs) => if |fs| > 1 then EachFile(fs) else Crash
    case Absent => Crash
    case Blank => Crash
    case Single(f) =>
      if f.filename != "" then OneFile(f)
      else if apiCallNoImages then Placeholder
      else NoImages
  }

  /** One image record per file, in file order, under consecutive ids from `next`. */
  function FileRecords(fs: seq<UploadedFile>, next: Id, upload: seq<bv8> -> string): (r: seq<Image>)
    ensures |r| == |fs|
  {
    seq(|fs|, i requires 0 <= i < |fs| => Image(next + i, fs[i].filename, upload(fs[i].data), None))
  }

  /** The records a plan creates, under consecutive ids from `next`. */
  function PlannedImages(plan: ImagePlan, next: Id, upload: seq<bv8> -> string, nowText: string): seq<Image> {
    match plan
    case EachFile(fs) => FileRecords(fs, next, upload)
    case OneFile(f) => [Image(next, f.filename, upload(f.data), None)]
    case Placeholder => [Image(next, DefaultImageTitlePrefix + nowText, DefaultImageUrl, None)]
    case NoImages => []
    case Crash => []
  }

  /** The ids and titles a service returns for the records it created. */
  function ResultOf(imgs: seq<Image>): (r: ImageResult)
    ensures |r.imageIds| == |r.imageTitles| == |imgs|
  {
    ImageResult(Keys(imgs, ImageKey), Column(imgs, ImageTitle))
  }

  /** What a plan creates: as many records as files, or one, or none; each with
      a fresh id of its own, no monument yet, and the file's name and hosted URL
      or the placeholder's generated name and fixed URL. */
  lemma PlannedImagesShape(plan: ImagePlan, next: Id, upload: seq<bv8> -> string, nowText: string)
    ensures var r := PlannedImages(plan, next, upload, nowText);
      && Keys(r, ImageKey) == IdRange(next, |r|)
      && (forall i :: 0 <= i < |r| ==> r[i].monument == None)
      && (plan.EachFile? ==> |r| == |plan.files| && forall i :: 0 <= i < |r| ==>
            r[i].title == plan.files[i].filename && r[i].imageUrl == upload(plan.files[i].data))
      && (plan.OneFile? ==> r == [Image(next, plan.file.filename, upload(plan.file.data), None)])
      && (plan.Placeholder? ==> |r| == 1 && r[0].title[..|DefaultImageTitlePrefix|] == DefaultImageTitlePrefix
                                && r[0].imageUrl == DefaultImageUrl)
      && (plan.NoImages? || plan.Crash? ==> r == [])
  {
    var r := PlannedImages(plan, next, upload, nowText);
    assert Keys(r, ImageKey) == IdRange(next, |r|);
  }

  /** `next`, `next + 1`, ..., `next + n - 1`: distinct ids not handed out before `next`. */
  function IdRange(next: Id, n: nat): (r: seq<Id>)
    ensures |r| == n
    ensures forall i :: 0 <= i < n ==> r[i] == next + i
    ensures forall i, j :: 0 <= i < j < n ==> r[i] != r[j]
  {
    seq(n, i requires 0 <= i < n => next + i)
  }

  /** Lines 53-73 and 122-140: upload every file and create a record per file. */
  method SaveEachFile(db: Database, fs: seq<UploadedFile>, upload: seq<bv8> -> string) returns (res: ImageResult)
    requires db.Valid()
    modifies db`images, db`nextId
    ensures db.Valid()
    ensures db.nextId == old(db.nextId) + |fs|
    ensures db.images == old(db.images) + FileRecords(fs, old(db.nextId), upload)
    ensures res == ResultOf(FileRecords(fs, old(db.nextId), upload))
  {
    ghost var next0 := db.nextId;
    var monumentImageUrlArray: seq<Id> := [];
    var monumentImageTitleArray: seq<string> := [];
    var i := 0;
    while i < |fs|
      invariant 0 <= i <= |fs|
      invariant db.Valid()
      invariant db.nextId == next0 + i
      invariant db.images == old(db.images) + FileRecords(fs[..i], next0, upload)
      invariant ImageResult(monumentImageUrlArray, monumentImageTitleArray) == ResultOf(FileRecords(fs[..i], next0, upload))
    {
      var url := upload(fs[i].data);
      var id := db.NewImage(fs[i].filename, url, true);
      monumentImageUrlArray := monumentImageUrlArray + [id];
      monumentImageTitleArray := monumentImageTitleArray + [fs[i].filename];
      ghost var x := Image(next0 + i, fs[i].filename, url, None);
      assert FileRecords(fs[..i + 1], next0, upload) == FileRecords(fs[..i], next0, upload) + [x];
      i := i + 1;
    }
    assert fs[..i] == fs;
    res := ImageResult(monumentImageUrlArray, monumentImageTitleArray);
  }

  /** `addMonumentImages`. With a testing configuration the single-image
      record is built but not saved; the per-file records always are. */
  method AddMonumentImages(db: Database, image: ImageUpload, payloadUpload: ImageUpload, testing: bool,
                           upload: seq<bv8> -> string, nowText: string)
    returns (r: Result<ImageResult>)
    requires db.Valid()
    modifies db`images, db`nextId
    ensures db.Valid()
    ensures var plan := AddImagesPlan(image, payloadUpload);
      var recs := PlannedImages(plan, old(db.nextId), upload, nowText);
      && r == (if plan.Crash? then Err(TypeError) else Ok(ResultOf(recs)))
      && db.nextId == old(db.nextId) + |recs|
      && db.images == old(db.images) + (if plan.EachFile? || !testing then recs else [])
  {
    if image.Absent? {
      return Err(TypeError);
    }
    if image.Multiple? && |image.files| > 1 {
      var res := SaveEachFile(db, image.files, upload);
      return Ok(res);
    }
    var imageFileName: string;
    var url: string;
    if payloadUpload.Multiple? || payloadUpload.Absent? {
      return Err(TypeError);
    } else if payloadUpload.Single? && |payloadUpload.file.filename| != 0 {
      if !image.Single? {
        return Err(TypeError);
      }
      url := upload(image.file.data);
      imageFileName := image.file.filename;
    } else {
      imageFileName := DefaultImageTitlePrefix + nowText;
      url := DefaultImageUrl;
    }
    var id := db.NewImage(imageFileName, url, !testing);
    r := Ok(ImageResult([id], [imageFileName]));
    assert ResultOf([Image(id, imageFileName, url, None)]) == ImageResult([id], [imageFileName]);
  }

  /** `editMonumentImages`. */
  method EditMonumentImages(db: Database, image: ImageUpload, apiCallNoImages: bool,
                            upload: seq<bv8> -> string, nowText: string)
    returns (r: Result<ImageResult>)
    requires db.Valid()
    modifies db`images, db`nextId
    ensures db.Valid()
    ensures var plan := EditImagesPlan(image, apiCallNoImages);
      var recs := PlannedImages(plan, old(db.nextId), upload, nowText);
      && r == (if plan.Crash? then Err(TypeError) else Ok(ResultOf(recs)))
      && db.nextId == old(db.nextId) + |recs|
      && db.images == old(db.images) + recs
  {
    if image.Multiple? && |image.files| > 1 {
      var res := SaveEachFile(db, image.files, upload);
      return Ok(res);
    }
    if image.Multiple? || image.Blank? || image.Absent? {
      return Err(TypeError);
    }
    if image.file.filename != "" {
      var url := upload(image.file.data);
      var id := db.NewImage(image.file.filename, url, true);
      r := Ok(ImageResult([id], [image.file.filename]));
      assert ResultOf([Image(id, image.file.filename, url, None)]) == ImageResult([id], [image.file.filename]);
    } else if apiCallNoImages {
      var imageFileName := DefaultImageTitlePrefix + nowText;
      var id := db.NewImage(imageFileName, DefaultImageUrl, true);
      r := Ok(ImageResult([id], [imageFileName]));
      assert ResultOf([Image(id, imageFileName, DefaultImageUrl, None)]) == ImageResult([id], [imageFileName]);
    } else {
      r := Ok(ImageResult([], []));
      assert ResultOf([]) == ImageResult([], []);
    }
  }

  /** `addMonumentIdToImageRecords`. */
  method AddMonumentIdToImageRecords(db: Database, monumentImageTitleArray: seq<string>, monumentId: Id)
    requires db.Valid()
    modifies db`images
    ensures db.Valid()
    ensures db.images == LinkByTitle(old(db.images), monumentImageTitleArray, monumentId)
  {
    db.LinkImages(monumentImageTitleArray, monumentId);
  }

  /** `deleteImageRecords`. */
  method DeleteImageRecords(db: Database, monumentId: Id)
    requires db.Valid()
    modifies db`images
    ensures db.Valid()
    ensures db.images == DeleteByMonument(old(db.images), monumentId)
  {
    db.DeleteImagesOf(monumentId);
  }

  // ----- Properties -----

  /** Edit treats several files exactly as creation does, whatever the payload and flag. */
  lemma EditManyFilesLikeAdd(fs: seq<UploadedFile>, payloadUpload: ImageUpload, apiCallNoImages: bool)
    requires |fs| > 1
    ensures EditImagesPlan(Multiple(fs), apiCallNoImages) == AddImagesPlan(Multiple(fs), payloadUpload) == EachFile(fs)
  {
  }

  /** The unit test of `addMonumentImages`: a named upload under a payload
      whose file name is empty gets the placeholder: one id, and a title that
      starts with the placeholder name. With the testing flag nothing is saved. */
  lemma AddPlaceholderForEmptyPayloadName(data: seq<bv8>, upload: seq<bv8> -> string, next: Id, nowText: string)
    ensures var plan := AddImagesPlan(Single(UploadedFile(data, "testImage1.jpg")), Single(UploadedFile([], "")));
      var res := ResultOf(PlannedImages(plan, next, upload, nowText));
      && plan == Placeholder
      && |res.imageIds| == 1
      && res.imageTitles[0][..|DefaultImageTitlePrefix|] == DefaultImageTitlePrefix
  {
    PlannedImagesShape(Placeholder, next, upload, nowText);
  }

  /** With an unnamed file and the flag set, edit creates one placeholder
      record and returns its id and title. The unit test of `editMonumentImages`
      expects two empty arrays for exactly this call. */
  lemma EditFlagCreatesPlaceholder(data: seq<bv8>, upload: seq<bv8> -> string, next: Id, nowText: string)
    ensures var res := ResultOf(PlannedImages(EditImagesPlan(Single(UploadedFile(data, "")), true), next, upload, nowText));
      && res.imageIds == [next]
      && |res.imageTitles| == 1 && res.imageTitles[0][..|DefaultImageTitlePrefix|] == DefaultImageTitlePrefix
  {
    PlannedImagesShape(Placeholder, next, upload, nowText);
  }

  /** With an unnamed file and no flag, edit creates nothing and returns two empty lists. */
  lemma EditNothingWithoutFileOrFlag(data: seq<bv8>, upload: seq<bv8> -> string, next: Id, nowText: string)
    ensures PlannedImages(EditImagesPlan(Single(UploadedFile(data, "")), false), next, upload, nowText) == []
    ensures ResultOf([]) == ImageResult([], [])
  {
  }

  /** Linking the created images by title and then deleting the monument's
      images removes the linked ones and everything else already filed under
      the monument, and keeps every other image unchanged. */
  lemma {:induction false} LinkThenDelete(imgs: seq<Image>, titles: seq<string>, m: Id)
    ensures DeleteByMonument(LinkByTitle(imgs, titles, m), m) == Filter(imgs, Unrelated(titles, m))
    decreases |imgs|
  {
    if imgs != [] {
      var init, x := imgs[..|imgs| - 1], imgs[|imgs| - 1];
      var y := if x.title in titles then x.(monument := Some(m)) else x;
      assert imgs == init + [x];
      LinkThenDelete(init, titles, m);
      LinkByTitleSnoc(init, x, titles, m);
      FilterAppend(LinkByTitle(init, titles, m), y, NotOf(m));
      FilterAppend(init, x, Unrelated(titles, m));
      assert NotOf(m)(y) == Unrelated(titles, m)(x);
    }
  }

  lemma LinkByTitleSnoc(init: seq<Image>, x: Image, titles: seq<string>, m: Id)
    ensures LinkByTitle(init + [x], titles, m)
         == LinkByTitle(init, titles, m) + [if x.title in titles then x.(monument := Some(m)) else x]
  {
    var a, b := LinkByTitle(init + [x], titles, m), LinkByTitle(init, titles, m);
    assert forall i :: 0 <= i < |init| ==> (init + [x])[i] == init[i];
    assert |a| == |b| + 1;
  }

  function Unrelated(titles: seq<string>, m: Id): Image -> bool {
    (i: Image) => i.title !in titles && i.monument != Some(m)
  }
}
