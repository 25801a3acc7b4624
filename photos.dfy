/** The photo picker shared by the duo forms: chosen files, the preview URL
    made for each, and removal by position. A file is known by its name; a
    preview URL by the file it shows. */
module Photos {
  /** The limit both duo forms put on the number of photos. */
  const MaxPhotos: nat := 10

  datatype File = File(name: string)

  /** `URL.createObjectURL(file)`: a temporary URL showing `file`. */
  datatype PreviewUrl = PreviewOf(file: File)

  /** `files.map(file => URL.createObjectURL(file))`. */
  function Previews(files: seq<File>): (urls: seq<PreviewUrl>)
    ensures |urls| == |files|
    ensures forall i :: 0 <= i < |files| ==> urls[i].file == files[i]
  {
    seq(|files|, i requires 0 <= i < |files| => PreviewOf(files[i]))
  }

  /** `copy.splice(index, 1)` on a copy of `s`, and equally
      `s.filter((_, i) => i !== index)`: the element at `index` goes, the
      others keep their order; an index past the end changes nothing. */
  function RemoveAt<T>(s: seq<T>, index: nat): (r: seq<T>)
    ensures index < |s| ==> |r| == |s| - 1
    ensures index >= |s| ==> r == s
    ensures forall i :: 0 <= i < |r| && i < index ==> r[i] == s[i]
    ensures forall i :: index <= i < |r| ==> r[i] == s[i + 1]
  {
    if index < |s| then s[..index] + s[index + 1..] else s
  }

  /** Putting the removed element back where it was restores the sequence. */
  lemma RemoveAtReinsert<T>(s: seq<T>, index: nat)
    requires index < |s|
    ensures RemoveAt(s, index)[..index] + [s[index]] + RemoveAt(s, index)[index..] == s
  {
    var r := RemoveAt(s, index);
    assert r[..index] == s[..index];
    assert r[index..] == s[index + 1..];
    assert s == s[..index] + [s[index]] + s[index + 1..];
  }

  /** Removing a file and its preview at the same position keeps the two
      lists aligned. */
  lemma PreviewsRemoveAt(files: seq<File>, index: nat)
    ensures Previews(RemoveAt(files, index)) == RemoveAt(Previews(files), index)
  {
  }

  /** Previews of an appended list are the previews of each part. */
  lemma PreviewsAppend(a: seq<File>, b: seq<File>)
    ensures Previews(a + b) == Previews(a) + Previews(b)
  {
  }
}
