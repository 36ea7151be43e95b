/** The drop handler of the image uploader: it examines the first dropped file
    only, and either alerts the user or hands the file to `onImageUpload`. */
module ImageUploader {
  import opened Wrappers

  /** The browser `File` fields the handler reads. */
  datatype File = File(name: string, mimeType: string, size: nat)

  /** What one drop does: nothing, an `alert`, or one call of `onImageUpload`. */
  datatype DropResult = Ignored | Alerted(message: string) | Uploaded(file: File)

  const ImagePrefix := "image/"
  /** 5 MiB, the largest accepted size in bytes. */
  const MaxSize: nat := 5 * 1024 * 1024
  const TypeAlert := "Please upload an image file (JPEG, PNG, etc.)"
  const SizeAlert := "Please upload an image smaller than 5MB"

  /** `file.type.startsWith('image/')`: the MIME type is "image/" followed by a subtype. */
  predicate IsImageType(mimeType: string): (b: bool)
    ensures b <==> exists subtype :: mimeType == ImagePrefix + subtype
  {
    if |ImagePrefix| <= |mimeType| && mimeType[..|ImagePrefix|] == ImagePrefix then
      assert mimeType == ImagePrefix + mimeType[|ImagePrefix|..];
      true
    else
      false
  }

  /** `onDrop(acceptedFiles)`; a missing list is `None`. */
  function OnDrop(acceptedFiles: Option<seq<File>>): (r: DropResult)
    ensures acceptedFiles.None? || acceptedFiles.value == [] <==> r == Ignored
    ensures r.Uploaded? ==> r.file == acceptedFiles.value[0]
  {
    if acceptedFiles.Some? && |acceptedFiles.value| > 0 then
      var file := acceptedFiles.value[0];
      if !IsImageType(file.mimeType) then Alerted(TypeAlert)
      else if file.size > MaxSize then Alerted(SizeAlert)
      else Uploaded(file)
    else Ignored
  }

  /** Only the first file matters: what follows it never changes the outcome. */
  lemma FirstFileOnly(first: File, rest: seq<File>, rest': seq<File>)
    ensures OnDrop(Some([first] + rest)) == OnDrop(Some([first] + rest'))
  {
  }

  /** A drop of one file is rejected for its type before its size, and
      uploaded exactly when it is an image of at most 5 MiB. */
  lemma DropOutcome(file: File, rest: seq<File>)
    ensures !IsImageType(file.mimeType) ==> OnDrop(Some([file] + rest)) == Alerted(TypeAlert)
    ensures IsImageType(file.mimeType) && file.size > MaxSize ==> OnDrop(Some([file] + rest)) == Alerted(SizeAlert)
    ensures OnDrop(Some([file] + rest)) == Uploaded(file) <==> IsImageType(file.mimeType) && file.size <= MaxSize
  {
    assert ([file] + rest)[0] == file;
  }

  /** The size limit is inclusive: 5,242,880 bytes pass, one byte more does not. */
  lemma SizeBoundary(name: string, mimeType: string)
    requires IsImageType(mimeType)
    ensures OnDrop(Some([File(name, mimeType, 5242880)])) == Uploaded(File(name, mimeType, 5242880))
    ensures OnDrop(Some([File(name, mimeType, 5242881)])) == Alerted(SizeAlert)
  {
  }

  /** An oversized file that is not an image is reported for its type. */
  lemma TypeCheckedFirst(file: File, rest: seq<File>)
    requires !IsImageType(file.mimeType) && file.size > MaxSize
    ensures OnDrop(Some([file] + rest)) == Alerted(TypeAlert)
  {
    DropOutcome(file, rest);
  }
}
