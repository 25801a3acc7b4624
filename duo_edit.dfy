/** The duo editing page (pages/DuoEdit.tsx): who may open it, the photo
    part of its form, and the place name shown for a reverse-geocoded
    position. */
module DuoEdit {
  import opened Wrappers
  import opened Seqs
  import opened Text
  import opened Entities
  import opened Photos

  /** The duo row as fetched for editing, with its free-text location. */
  datatype EditableDuo = EditableDuo(duo: Duo, location: Option<string>)

  datatype LoadError =
    | LoadFailed(message: string)   // 'Failed to load duo details: ' + message
    | NotAMember                    // 'You do not have permission to edit this duo. ...'

  /** Loading the page: the fetch must succeed and the caller must be one of
      the two members. */
  function LoadForEdit(caller: UserId, fetched: Result<EditableDuo, string>): (r: Result<EditableDuo, LoadError>)
    ensures r.Ok? <==> fetched.Ok? && fetched.value.duo.HasMember(caller)
    ensures r.Ok? ==> r.value == fetched.value
    ensures fetched.Err? ==> r == Err(LoadFailed(fetched.error))
    ensures fetched.Ok? && !fetched.value.duo.HasMember(caller) ==> r == Err(NotAMember)
  {
    match fetched
    case Err(message) => Err(LoadFailed(message))
    case Ok(e) =>
      if e.duo.user1.id != caller && e.duo.user2.id != caller then Err(NotAMember) else Ok(e)
  }

  /** 'You can only have up to 10 photos (<alreadySelected> already selected)'. */
  datatype PhotoLimitError = PhotoLimitError(alreadySelected: nat)

  /** The form of the editing page: the duo's stored photos, the files picked
      in this session with one preview each, and the other fields. */
  class DuoEditForm {
    var bio: string
    var existingPhotos: seq<string>
    var newPhotos: seq<File>
    var photoUrls: seq<PreviewUrl>
    var latitude: Option<real>
    var longitude: Option<real>
    var location: string
    var error: Option<PhotoLimitError>

    /** One preview per picked file, in the same order. */
    ghost predicate Valid()
      reads this
    {
      photoUrls == Previews(newPhotos)
    }

    /** The form as initialised from a loaded duo. */
    constructor (loaded: EditableDuo)
      ensures Valid()
      ensures bio == loaded.duo.bio.GetOr("") && existingPhotos == loaded.duo.photos
      ensures newPhotos == [] && photoUrls == []
      ensures latitude == loaded.duo.latitude && longitude == loaded.duo.longitude
      ensures location == loaded.location.GetOr("") && error == None
    {
      bio := loaded.duo.bio.GetOr("");
      existingPhotos := loaded.duo.photos;
      newPhotos := [];
      photoUrls := [];
      latitude := loaded.duo.latitude;
      longitude := loaded.duo.longitude;
      location := loaded.location.GetOr("");
      error := None;
    }

    /** `handleFileChange`: no files, nothing happens; more than ten photos in
        all, the error is set and the photos stay; otherwise the files are
        appended in order and the previews are made afresh. */
    method AddFiles(files: Option<seq<File>>)
      requires Valid()
      modifies this
      ensures Valid()
      ensures bio == old(bio) && existingPhotos == old(existingPhotos)
      ensures latitude == old(latitude) && longitude == old(longitude) && location == old(location)
      ensures files.None? ==> newPhotos == old(newPhotos) && error == old(error)
      ensures files.Some? && |old(existingPhotos)| + |old(newPhotos)| + |files.value| > MaxPhotos ==>
        newPhotos == old(newPhotos) && error == Some(PhotoLimitError(|old(existingPhotos)| + |old(newPhotos)|))
      ensures files.Some? && |old(existingPhotos)| + |old(newPhotos)| + |files.value| <= MaxPhotos ==>
        newPhotos == old(newPhotos) + files.value && error == old(error)
        && |existingPhotos| + |newPhotos| <= MaxPhotos
    {
      if files.None? {
        return;
      }
      var incoming := files.value;
      var total := |existingPhotos| + |newPhotos|;
      if total + |incoming| > MaxPhotos {
        error := Some(PhotoLimitError(total));
        return;
      }
      var picked := newPhotos;
      for i := 0 to |incoming|
        invariant picked == newPhotos + incoming[..i]
      {
        picked := picked + [incoming[i]];
      }
      assert incoming[..|incoming|] == incoming;
      newPhotos := picked;
      photoUrls := Previews(picked);
    }

    /** `removeExistingPhoto`: drops the stored photo at `index`. */
    method RemoveExistingPhoto(index: nat)
      requires Valid()
      modifies this
      ensures Valid()
      ensures existingPhotos == RemoveAt(old(existingPhotos), index)
      ensures newPhotos == old(newPhotos) && photoUrls == old(photoUrls)
      ensures bio == old(bio) && error == old(error) && location == old(location)
      ensures latitude == old(latitude) && longitude == old(longitude)
    {
      existingPhotos := RemoveAt(existingPhotos, index);
    }

    /** `removeNewPhoto`: drops the picked file at `index` and its preview. */
    method RemoveNewPhoto(index: nat)
      requires Valid()
      modifies this
      ensures Valid()
      ensures newPhotos == RemoveAt(old(newPhotos), index)
      ensures photoUrls == RemoveAt(old(photoUrls), index)
      ensures existingPhotos == old(existingPhotos)
      ensures bio == old(bio) && error == old(error) && location == old(location)
      ensures latitude == old(latitude) && longitude == old(longitude)
    {
      PreviewsRemoveAt(newPhotos, index);
      newPhotos := RemoveAt(newPhotos, index);
      photoUrls := RemoveAt(photoUrls, index);
    }
  }

  /** The place name kept from a reverse-geocoding answer: for a display name
      with at least two ", "-separated parts, "<second part>, <last part>";
      for one with a single part, the whole name; for none, 'Unknown
      location'. */
  function LocationName(displayName: Option<string>): (r: string)
    ensures displayName.None? || displayName.value == [] ==> r == "Unknown location"
  {
    if displayName.None? || displayName.value == [] then "Unknown location"
    else
      var parts := Split(displayName.value, ", ");
      if |parts| >= 2 then parts[1] + ", " + Last(parts) else displayName.value
  }

  /** A display name without ", " is kept whole. */
  lemma LocationNameWhole(displayName: string)
    requires displayName != [] && !Contains(displayName, ", ")
    ensures LocationName(Some(displayName)) == displayName
  {
    SplitOnePieceIffAbsent(displayName, ", ");
  }

  /** A display name with ", " is cut into pieces free of ", " that join
      back into it; the result is the second piece and the last. */
  lemma LocationNameParts(displayName: string)
    requires Contains(displayName, ", ")
    ensures exists parts: seq<string> ::
      (|parts| >= 2 && Join(parts, ", ") == displayName
       && (forall i :: 0 <= i < |parts| ==> !Contains(parts[i], ", "))
       && LocationName(Some(displayName)) == parts[1] + ", " + parts[|parts| - 1])
  {
    SplitOnePieceIffAbsent(displayName, ", ");
    JoinSplit(displayName, ", ");
    SplitPiecesFree(displayName, ", ");
    var parts := Split(displayName, ", ");
    assert |parts| >= 2 && Join(parts, ", ") == displayName;
  }
}
