/** `POST /uploads/<campaign_id>` (api/uploads.py): for each of the three
    image types in a fixed order, an uploaded file with an allowed extension
    is saved under the campaign folder with a date-derived name, the image
    record for (campaign, type) is updated in place or created, and a
    replaced file that still exists under another name is unlinked. */
module Uploads {
  import opened Values
  import opened Dates
  import opened CampaignModel
  import opened FileNames
  import opened Http

  /** The form keys `upload_image` looks at, in processing order. */
  const ImageTypes: seq<string> := ["background", "logo", "screensaver"]

  /** The image records of the `campaign_images` table, keyed by the pair the
      handler looks them up by. */
  datatype ImageKey = ImageKey(campaignId: int, imageType: string)
  type ImageStore = map<ImageKey, string>

  /** One entry of the response's `uploaded_files` list. */
  datatype UploadedFile = UploadedFile(imageType: string, path: string, filename: string)

  /** `request.files`: form key to the client's file name ("" when the part
      carries no file name, which makes the file falsy). */
  type FileForm = map<string, string>

  predicate Accepts(form: FileForm, imageType: string) {
    imageType in form && form[imageType] != "" && AllowedFile(form[imageType], AllowedExtensions)
  }

  /** The types that get saved, in processing order. */
  function AcceptedTypes(form: FileForm, types: seq<string>): (acc: seq<string>)
    ensures forall t :: t in acc <==> t in types && Accepts(form, t)
  {
    if |types| == 0 then []
    else (if Accepts(form, types[0]) then [types[0]] else []) + AcceptedTypes(form, types[1..])
  }

  /** `str(folder / filename)`: where the image of a type is saved. */
  function SavedPath(c: Campaign, imageType: string): string
    requires Valid(c.startDate)
  {
    c.folderPath + "/" + ImageFilename(c.startDate, imageType)
  }

  function Entry(c: Campaign, imageType: string): UploadedFile
    requires Valid(c.startDate)
  {
    UploadedFile(imageType, SavedPath(c, imageType), ImageFilename(c.startDate, imageType))
  }

  function Entries(c: Campaign, types: seq<string>): (es: seq<UploadedFile>)
    requires Valid(c.startDate)
    ensures |es| == |types|
    ensures forall i :: 0 <= i < |types| ==> es[i] == Entry(c, types[i])
  {
    if |types| == 0 then [] else [Entry(c, types[0])] + Entries(c, types[1..])
  }

  /** State threaded through the loop: response entries so far, the image
      records, the files on disk, and the files unlinked so far. */
  datatype Progress = Progress(
    files: seq<UploadedFile>,
    images: ImageStore,
    disk: set<string>,
    removed: seq<string>)

  /** One iteration of the loop for one image type. */
  function Step(c: Campaign, form: FileForm, imageType: string, p: Progress): Progress
    requires Valid(c.startDate)
  {
    if !Accepts(form, imageType) then p
    else
      var path := SavedPath(c, imageType);
      var key := ImageKey(c.id, imageType);
      var disk := p.disk + {path};
      var unlink := key in p.images && p.images[key] in disk && p.images[key] != path;
      Progress(
        p.files + [Entry(c, imageType)],
        p.images[key := path],
        if unlink then disk - {p.images[key]} else disk,
        if unlink then p.removed + [p.images[key]] else p.removed)
  }

  /** The loop over `types`. */
  function Process(c: Campaign, form: FileForm, types: seq<string>, p: Progress): Progress
    requires Valid(c.startDate)
    decreases |types|
  {
    if |types| == 0 then p
    else Process(c, form, types[1..], Step(c, form, types[0], p))
  }

  /** `q` is the previous file of an accepted type, replaced by a file of
      another name. */
  ghost predicate Replaced(c: Campaign, acc: seq<string>, images: ImageStore, q: string)
    requires Valid(c.startDate)
  {
    exists t :: t in acc && ImageKey(c.id, t) in images
      && images[ImageKey(c.id, t)] == q && q != SavedPath(c, t)
  }

  /** The loop appends one response entry per accepted type, in order. */
  lemma {:induction false} ProcessFiles(c: Campaign, form: FileForm, types: seq<string>, p: Progress)
    requires Valid(c.startDate)
    ensures Process(c, form, types, p).files == p.files + Entries(c, AcceptedTypes(form, types))
    decreases |types|
  {
    if |types| > 0 {
      var t0 := types[0];
      var acc1 := AcceptedTypes(form, types[1..]);
      ProcessFiles(c, form, types[1..], Step(c, form, t0, p));
      assert Entries(c, AcceptedTypes(form, types))
        == (if Accepts(form, t0) then [Entry(c, t0)] else []) + Entries(c, acc1);
    }
  }

  /** Afterwards there is a record for every accepted type of the campaign,
      holding the new path; every other record is untouched. */
  lemma {:induction false} ProcessImages(c: Campaign, form: FileForm, types: seq<string>, p: Progress)
    requires Valid(c.startDate)
    ensures var r, acc := Process(c, form, types, p), AcceptedTypes(form, types);
      && (forall k :: k in r.images <==> k in p.images || (k.campaignId == c.id && k.imageType in acc))
      && (forall t :: t in acc ==> r.images[ImageKey(c.id, t)] == SavedPath(c, t))
      && (forall k :: k in p.images && !(k.campaignId == c.id && k.imageType in acc) ==> r.images[k] == p.images[k])
    decreases |types|
  {
    if |types| > 0 {
      ProcessImages(c, form, types[1..], Step(c, form, types[0], p));
    }
  }

  /** The loop only appends to the list of unlinked files. */
  lemma {:induction false} ProcessRemovedGrows(c: Campaign, form: FileForm, types: seq<string>, p: Progress)
    requires Valid(c.startDate)
    ensures var r := Process(c, form, types, p);
      |p.removed| <= |r.removed| && r.removed[..|p.removed|] == p.removed
    decreases |types|
  {
    if |types| > 0 {
      var p1 := Step(c, form, types[0], p);
      var r := Process(c, form, types, p);
      ProcessRemovedGrows(c, form, types[1..], p1);
      assert r.removed[..|p.removed|] == r.removed[..|p1.removed|][..|p.removed|];
    }
  }

  /** A file is unlinked only if it was the previous file of an accepted
      type and differs from that type's new path. */
  lemma {:induction false} ProcessRemovesOnlyReplaced(c: Campaign, form: FileForm, types: seq<string>, p: Progress)
    requires Valid(c.startDate)
    ensures var r := Process(c, form, types, p);
      forall i :: |p.removed| <= i < |r.removed| ==> Replaced(c, AcceptedTypes(form, types), p.images, r.removed[i])
    decreases |types|
  {
    if |types| > 0 {
      var t0 := types[0];
      var p1 := Step(c, form, t0, p);
      var r := Process(c, form, types, p);
      var acc1 := AcceptedTypes(form, types[1..]);
      var acc := AcceptedTypes(form, types);
      assert acc == (if Accepts(form, t0) then [t0] else []) + acc1;
      ProcessRemovesOnlyReplaced(c, form, types[1..], p1);
      ProcessRemovedGrows(c, form, types[1..], p1);
      ProcessImages(c, form, [t0], p);
      forall i | |p.removed| <= i < |r.removed|
        ensures Replaced(c, acc, p.images, r.removed[i])
      {
        if i < |p1.removed| {
          assert p1.removed[i] == r.removed[i];
          assert t0 in acc;
        } else {
          assert Replaced(c, acc1, p1.images, r.removed[i]);
          var t :| t in acc1 && ImageKey(c.id, t) in p1.images
            && p1.images[ImageKey(c.id, t)] == r.removed[i] && r.removed[i] != SavedPath(c, t);
          assert t in acc;
        }
      }
    }
  }

  /** Files on disk stay there unless they are unlinked. */
  lemma {:induction false} ProcessKeepsDisk(c: Campaign, form: FileForm, types: seq<string>, p: Progress)
    requires Valid(c.startDate)
    ensures var r := Process(c, form, types, p);
      forall q :: q in p.disk && q !in r.removed ==> q in r.disk
    decreases |types|
  {
    if |types| > 0 {
      var p1 := Step(c, form, types[0], p);
      ProcessKeepsDisk(c, form, types[1..], p1);
      ProcessRemovedGrows(c, form, types[1..], p1);
      var r := Process(c, form, types, p);
      assert forall x :: x in p1.removed ==> x in r.removed by {
        assert p1.removed == r.removed[..|p1.removed|];
      }
      forall q | q in p.disk && q !in r.removed
        ensures q in r.disk
      {
        assert q in p1.disk;
      }
    }
  }

  /** The previous file of an accepted type is unlinked whenever it exists
      and differs from the new path. */
  lemma {:induction false} ProcessRemovesStale(c: Campaign, form: FileForm, types: seq<string>, p: Progress)
    requires Valid(c.startDate)
    ensures var r := Process(c, form, types, p);
      forall t :: t in AcceptedTypes(form, types) && ImageKey(c.id, t) in p.images
        && p.images[ImageKey(c.id, t)] in p.disk && p.images[ImageKey(c.id, t)] != SavedPath(c, t)
        ==> p.images[ImageKey(c.id, t)] in r.removed
    decreases |types|
  {
    if |types| > 0 {
      var t0 := types[0];
      var p1 := Step(c, form, t0, p);
      var r := Process(c, form, types, p);
      var acc1 := AcceptedTypes(form, types[1..]);
      assert AcceptedTypes(form, types) == (if Accepts(form, t0) then [t0] else []) + acc1;
      ProcessRemovesStale(c, form, types[1..], p1);
      ProcessRemovedGrows(c, form, types[1..], p1);
      ProcessImages(c, form, [t0], p);
      ProcessKeepsDisk(c, form, [t0], p);
      forall t | t in AcceptedTypes(form, types) && ImageKey(c.id, t) in p.images
          && p.images[ImageKey(c.id, t)] in p.disk && p.images[ImageKey(c.id, t)] != SavedPath(c, t)
        ensures p.images[ImageKey(c.id, t)] in r.removed
      {
        var q := p.images[ImageKey(c.id, t)];
        if t == t0 || q in p1.removed {
          assert q in p1.removed;
          assert q in r.removed[..|p1.removed|];
        } else {
          assert t in acc1;
        }
      }
    }
  }

  /** The success body: a fixed message and the `uploaded_files` list. */
  datatype UploadReply = UploadReply(message: string, uploadedFiles: seq<UploadedFile>)

  const UploadedMessage := "Images uploaded successfully"

  datatype UploadResult = UploadResult(
    outcome: Outcome<UploadReply>,
    images: ImageStore,
    disk: set<string>,
    removed: seq<string>)

  /** `upload_image(campaign_id)` with the request's files, the image
      records and the files on disk. A missing campaign aborts with 404. */
  function UploadImage(
    campaigns: map<int, Campaign>, images: ImageStore, disk: set<string>,
    campaignId: int, form: FileForm): UploadResult
    requires campaignId in campaigns ==> Valid(campaigns[campaignId].startDate)
  {
    if campaignId !in campaigns then UploadResult(Aborted(404), images, disk, [])
    else
      var c := campaigns[campaignId];
      var r := Process(c, form, ImageTypes, Progress([], images, disk, []));
      if |r.files| == 0 then
        UploadResult(Returned(Reply(400, "error", "No valid image files provided")), images, disk, [])
      else
        UploadResult(Returned(Response(200, Payload(UploadReply(UploadedMessage, r.files)))), r.images, r.disk, r.removed)
  }

  /** The response: 404 for an unknown campaign, 400 when no file is
      accepted, otherwise one entry per accepted type in processing order. */
  lemma UploadImageOutcome(
    campaigns: map<int, Campaign>, images: ImageStore, disk: set<string>,
    campaignId: int, form: FileForm)
    requires campaignId in campaigns ==> Valid(campaigns[campaignId].startDate)
    ensures var r := UploadImage(campaigns, images, disk, campaignId, form);
      && (campaignId !in campaigns ==>
            r.outcome == Aborted(404) && r.images == images && r.disk == disk)
      && (campaignId in campaigns && AcceptedTypes(form, ImageTypes) == [] ==>
            && r.outcome == Returned(Reply(400, "error", "No valid image files provided"))
            && r.images == images && r.disk == disk && r.removed == [])
      && (campaignId in campaigns && AcceptedTypes(form, ImageTypes) != [] ==>
            r.outcome == Returned(Response(200, Payload(UploadReply(UploadedMessage,
              Entries(campaigns[campaignId], AcceptedTypes(form, ImageTypes)))))))
  {
    if campaignId in campaigns {
      var c := campaigns[campaignId];
      var p0 := Progress([], images, disk, []);
      var acc := AcceptedTypes(form, ImageTypes);
      ProcessFiles(c, form, ImageTypes, p0);
      assert Process(c, form, ImageTypes, p0).files == Entries(c, acc);
      assert |Entries(c, acc)| == |acc|;
    }
  }

  /** After a successful upload there is exactly one record per accepted
      type of the campaign, holding the new path; all other records are
      unchanged. */
  lemma UploadImageRecords(
    campaigns: map<int, Campaign>, images: ImageStore, disk: set<string>,
    campaignId: int, form: FileForm)
    requires campaignId in campaigns && Valid(campaigns[campaignId].startDate)
    requires AcceptedTypes(form, ImageTypes) != []
    ensures var r, c, acc := UploadImage(campaigns, images, disk, campaignId, form),
        campaigns[campaignId], AcceptedTypes(form, ImageTypes);
      && (forall k :: k in r.images <==> k in images || (k.campaignId == c.id && k.imageType in acc))
      && (forall t :: t in acc ==> r.images[ImageKey(c.id, t)] == SavedPath(c, t))
      && (forall k :: k in images && !(k.campaignId == c.id && k.imageType in acc) ==> r.images[k] == images[k])
  {
    var p0 := Progress([], images, disk, []);
    ProcessFiles(campaigns[campaignId], form, ImageTypes, p0);
    ProcessImages(campaigns[campaignId], form, ImageTypes, p0);
  }

  /** After a successful upload, the unlinked files are exactly previous
      files of accepted types that differ from the new paths, and every such
      file that existed is unlinked. */
  lemma UploadImageUnlinks(
    campaigns: map<int, Campaign>, images: ImageStore, disk: set<string>,
    campaignId: int, form: FileForm)
    requires campaignId in campaigns && Valid(campaigns[campaignId].startDate)
    requires AcceptedTypes(form, ImageTypes) != []
    ensures var r, c, acc := UploadImage(campaigns, images, disk, campaignId, form),
        campaigns[campaignId], AcceptedTypes(form, ImageTypes);
      && (forall q :: q in r.removed ==> Replaced(c, acc, images, q))
      && (forall t :: t in acc && ImageKey(c.id, t) in images
            && images[ImageKey(c.id, t)] in disk && images[ImageKey(c.id, t)] != SavedPath(c, t)
            ==> images[ImageKey(c.id, t)] in r.removed)
  {
    var c := campaigns[campaignId];
    var p0 := Progress([], images, disk, []);
    ProcessFiles(c, form, ImageTypes, p0);
    ProcessRemovesOnlyReplaced(c, form, ImageTypes, p0);
    ProcessRemovesStale(c, form, ImageTypes, p0);
    var r := Process(c, form, ImageTypes, p0);
    forall q | q in r.removed
      ensures Replaced(c, AcceptedTypes(form, ImageTypes), images, q)
    {
      var i :| 0 <= i < |r.removed| && r.removed[i] == q;
    }
  }

  /** Two forms that agree on the three image keys lead to the same loop:
      no other form key is looked at. */
  lemma {:induction false} ProcessReadsOnlyTypes(
    c: Campaign, f1: FileForm, f2: FileForm, types: seq<string>, p: Progress)
    requires Valid(c.startDate)
    requires forall t :: t in types ==> Accepts(f1, t) == Accepts(f2, t)
    ensures Process(c, f1, types, p) == Process(c, f2, types, p)
    decreases |types|
  {
    if |types| > 0 {
      assert Step(c, f1, types[0], p) == Step(c, f2, types[0], p);
      ProcessReadsOnlyTypes(c, f1, f2, types[1..], Step(c, f1, types[0], p));
    }
  }

  /** Only the keys background, logo and screensaver of the request's files
      matter; any other key is ignored. */
  lemma UploadImageIgnoresOtherKeys(
    campaigns: map<int, Campaign>, images: ImageStore, disk: set<string>,
    campaignId: int, f1: FileForm, f2: FileForm)
    requires campaignId in campaigns ==> Valid(campaigns[campaignId].startDate)
    requires forall t :: t in ImageTypes ==> (t in f1 <==> t in f2) && (t in f1 ==> f1[t] == f2[t])
    ensures UploadImage(campaigns, images, disk, campaignId, f1)
         == UploadImage(campaigns, images, disk, campaignId, f2)
  {
    if campaignId in campaigns {
      ProcessReadsOnlyTypes(campaigns[campaignId], f1, f2, ImageTypes, Progress([], images, disk, []));
    }
  }
}
