/** The client half of the image upload (campaign-manager-frontend/src/services/
    campaigns.js, `uploadImages`): which argument shapes become a multipart
    POST to `/uploads/<id>`, which resolve at once with a message, and which
    reject. A `File` is modelled by the name it carries; the object's
    properties are given in `for...in` enumeration order, each marked own or
    inherited. */
module UploadDispatch {

  /** A property value: a browser `File`, or anything else (`null`, a
      string, a plain object). */
  datatype Item = FileItem(fileName: string) | OtherItem

  /** One enumerable property met by `for...in`. */
  datatype Property = Property(key: string, item: Item, own: bool)

  /** The shapes `uploadImages` tells apart. */
  datatype UploadArg =
    | FormDataArg(entries: seq<(string, string)>)
    | ObjectArg(props: seq<Property>)
    | FileArg
    | ArrayArg
    | NullArg
    | PrimitiveArg

  /** What the returned promise does. */
  datatype UploadCall =
    | Post(path: string, form: seq<(string, string)>)
    | Resolved(message: string)
    | Rejected(message: string)

  const NoNewFiles := "No new files to upload."
  const EmptyForm := "No files to upload (FormData is empty)."
  const InvalidArgument := "Invalid files argument for uploadImages."

  /** The form the object branch builds: each own property holding a `File`,
      in enumeration order. */
  function CollectFiles(props: seq<Property>): seq<(string, string)> {
    if |props| == 0 then []
    else
      var p := props[0];
      (if p.own && p.item.FileItem? then [(p.key, p.item.fileName)] else []) + CollectFiles(props[1..])
  }

  /** Collecting distributes over concatenation of property lists. */
  lemma {:induction false} CollectFilesConcat(a: seq<Property>, b: seq<Property>)
    ensures CollectFiles(a + b) == CollectFiles(a) + CollectFiles(b)
    decreases |a|
  {
    if |a| > 0 {
      assert (a + b)[1..] == a[1..] + b;
      CollectFilesConcat(a[1..], b);
    } else {
      assert a + b == b;
    }
  }

  /** An entry is in the form exactly when some own property holds that
      file under that key; inherited properties and non-files never are. */
  lemma {:induction false} CollectFilesMembers(props: seq<Property>)
    ensures forall k, n :: (k, n) in CollectFiles(props) <==> Property(k, FileItem(n), true) in props
    ensures |CollectFiles(props)| <= |props|
    decreases |props|
  {
    if |props| > 0 {
      CollectFilesMembers(props[1..]);
      assert props == [props[0]] + props[1..];
    }
  }

  /** `uploadImages(id, files)`. */
  function UploadImages(id: string, files: UploadArg): (r: UploadCall)
    ensures r.Post? ==> r.path == "/uploads/" + id && |r.form| > 0
    ensures files.FormDataArg? ==>
      r == (if |files.entries| == 0 then Resolved(EmptyForm) else Post("/uploads/" + id, files.entries))
    ensures files.ObjectArg? ==>
      r == (if |CollectFiles(files.props)| == 0 then Resolved(NoNewFiles)
            else Post("/uploads/" + id, CollectFiles(files.props)))
    ensures !files.FormDataArg? && !files.ObjectArg? <==> r.Rejected?
    ensures r.Rejected? ==> r.message == InvalidArgument
  {
    match files
    case FormDataArg(entries) =>
      if |entries| == 0 then Resolved(EmptyForm) else Post("/uploads/" + id, entries)
    case ObjectArg(props) =>
      var form := CollectFiles(props);
      // The later empty-form test never fires on this branch.
      if |form| == 0 then Resolved(NoNewFiles) else Post("/uploads/" + id, form)
    case _ => Rejected(InvalidArgument)
  }

  /** An object argument posts exactly the files a `FormData` holding the
      same entries would: the two accepted shapes agree. */
  lemma ObjectMatchesFormData(id: string, props: seq<Property>)
    requires |CollectFiles(props)| > 0
    ensures UploadImages(id, ObjectArg(props)) == UploadImages(id, FormDataArg(CollectFiles(props)))
  {
  }

  /** A request goes out exactly when there is at least one file to send,
      and the "empty form" message only ever answers a `FormData`. */
  lemma PostIffFiles(id: string, files: UploadArg)
    ensures UploadImages(id, files).Post? <==>
      (files.FormDataArg? && |files.entries| > 0) || (files.ObjectArg? && |CollectFiles(files.props)| > 0)
    ensures UploadImages(id, files) == Resolved(EmptyForm) ==> files == FormDataArg([])
    ensures UploadImages(id, files) == Resolved(NoNewFiles) ==>
      files.ObjectArg? && forall p :: p in files.props ==> !(p.own && p.item.FileItem?)
  {
    if files.ObjectArg? {
      CollectFilesMembers(files.props);
      forall p | p in files.props && p.own && p.item.FileItem?
        ensures (p.key, p.item.fileName) in CollectFiles(files.props)
      {
        assert Property(p.key, FileItem(p.item.fileName), true) == p;
      }
    }
  }

  /** Inherited properties never reach the form. */
  lemma InheritedIgnored(id: string, props: seq<Property>, key: string, item: Item)
    ensures UploadImages(id, ObjectArg(props + [Property(key, item, false)])) == UploadImages(id, ObjectArg(props))
  {
    CollectFilesConcat(props, [Property(key, item, false)]);
    assert CollectFiles([Property(key, item, false)]) == [];
  }
}
