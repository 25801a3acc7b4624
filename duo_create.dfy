/** The duo creation page (pages/DuoCreate.tsx): the photo part of its form
    and what submitting it checks and derives. Its friend list is built the
    same way as the friends page's (`FriendsPage.CombineFriends`). */
module DuoCreate {
  import opened Wrappers
  import opened Text
  import opened Entities
  import opened Photos
  import opened FriendsPage

  datatype CreateError =
    | PhotoLimit(alreadySelected: nat)   // 'You can only upload up to 10 photos (<n> already selected)'
    | NotLoggedIn                        // 'You must be logged in to create a duo'
    | NoPartnerSelected                  // 'Please select a partner for your duo'
    | PartnerNotFound                    // 'Selected friend not found'

  /** The photos picked for the new duo, with one preview each. */
  class DuoCreateForm {
    var photos: seq<File>
    var photoUrls: seq<PreviewUrl>
    var error: Option<CreateError>

    ghost predicate Valid()
      reads this
    {
      photoUrls == Previews(photos)
    }

    constructor ()
      ensures Valid() && photos == [] && error == None
    {
      photos := [];
      photoUrls := [];
      error := None;
    }

    /** `handleFileChange`: no files, nothing happens; more than ten photos in
        all, the error is set and the photos stay; otherwise the files are
        appended in order and the previews are made afresh. */
    method AddFiles(files: Option<seq<File>>)
      requires Valid()
      modifies this
      ensures Valid()
      ensures files.None? ==> photos == old(photos) && error == old(error)
      ensures files.Some? && |old(photos)| + |files.value| > MaxPhotos ==>
        photos == old(photos) && error == Some(PhotoLimit(|old(photos)|))
      ensures files.Some? && |old(photos)| + |files.value| <= MaxPhotos ==>
        photos == old(photos) + files.value && |photos| <= MaxPhotos && error == old(error)
    {
      if files.None? {
        return;
      }
      var incoming := files.value;
      if |photos| + |incoming| > MaxPhotos {
        error := Some(PhotoLimit(|photos|));
        return;
      }
      var picked := photos;
      for i := 0 to |incoming|
        invariant picked == photos + incoming[..i]
      {
        picked := picked + [incoming[i]];
      }
      assert incoming[..|incoming|] == incoming;
      photos := picked;
      photoUrls := Previews(picked);
    }

    /** `removePhoto`: drops the photo at `index` and makes the previews
        afresh. */
    method RemovePhoto(index: nat)
      requires Valid()
      modifies this
      ensures Valid()
      ensures photos == RemoveAt(old(photos), index)
      ensures photoUrls == RemoveAt(old(photoUrls), index)
      ensures error == old(error)
    {
      PreviewsRemoveAt(photos, index);
      photos := RemoveAt(photos, index);
      photoUrls := Previews(photos);
    }
  }

  /** `friends.find(friend => friend.id === partnerId)`: the first friend
      with that id. */
  function FindFriend(friends: seq<FriendCard>, partnerId: UserId): (r: Option<FriendCard>)
    ensures r.None? <==> !IsFriend(friends, partnerId)
    ensures r.Some? ==> exists i :: (0 <= i < |friends| && friends[i] == r.value && r.value.id == Some(partnerId)
        && forall k :: 0 <= k < i ==> friends[k].id != Some(partnerId))
  {
    if friends == [] then None
    else if friends[0].id == Some(partnerId) then Some(friends[0])
    else
      var r := FindFriend(friends[1..], partnerId);
      assert IsFriend(friends, partnerId) ==> IsFriend(friends[1..], partnerId) by {
        if IsFriend(friends, partnerId) {
          var i :| 0 <= i < |friends| && friends[i].id == Some(partnerId);
          assert friends[1..][i - 1] == friends[i];
        }
      }
      assert r.Some? ==> exists i :: (0 <= i < |friends| && friends[i] == r.value && r.value.id == Some(partnerId)
          && forall k :: 0 <= k < i ==> friends[k].id != Some(partnerId)) by {
        if r.Some? {
          var i :| 0 <= i < |friends[1..]| && friends[1..][i] == r.value && r.value.id == Some(partnerId)
            && forall k :: 0 <= k < i ==> friends[1..][k].id != Some(partnerId);
          assert friends[i + 1] == r.value;
          forall k | 0 <= k < i + 1
            ensures friends[k].id != Some(partnerId)
          {
            if k > 0 { assert friends[k] == friends[1..][k - 1]; }
          }
        }
      }
      r
  }

  /** The signed-in user as the page sees it. */
  datatype SessionUser = SessionUser(id: UserId, metaName: Option<string>, email: Option<string>)

  /** `user.user_metadata?.name || user.email?.split('@')[0] || 'User'`. */
  function UserName(u: SessionUser): (r: string)
    ensures u.metaName.Some? && u.metaName.value != [] ==> r == u.metaName.value
    ensures r == "User"
      || (u.metaName.Some? && r == u.metaName.value && r != [])
      || (u.email.Some? && r != [] && r <= u.email.value && '@' !in r
          && (|r| < |u.email.value| ==> u.email.value[|r|] == '@'))
    ensures (u.metaName.None? || u.metaName.value == []) && u.email.Some? && u.email.value != [] && u.email.value[0] != '@' ==>
      r != [] && r <= u.email.value && '@' !in r && (|r| < |u.email.value| ==> u.email.value[|r|] == '@')
    ensures (u.metaName.None? || u.metaName.value == []) && (u.email.None? || u.email.value == [] || u.email.value[0] == '@') ==>
      r == "User"
  {
    var local := if u.email.Some? then Some(Split(u.email.value, "@")[0]) else None;
    assert local.Some? ==> (local.value <= u.email.value && '@' !in local.value
        && (|local.value| < |u.email.value| ==> u.email.value[|local.value|] == '@')) by {
      if u.email.Some? {
        SplitHeadOnChar(u.email.value, '@');
      }
    }
    NonEmptyOr(u.metaName, NonEmptyOr(local, "User"))
  }

  /** An optional name inside a template literal: a missing one prints as
      'undefined'. */
  function Interpolated(name: Option<string>): (r: string)
    ensures name.Some? ==> r == name.value
    ensures name.None? ==> r == "undefined"
  {
    if name.Some? then name.value else "undefined"
  }

  /** The row `handleSubmit` inserts, without the uploaded photo URLs and the
      location. */
  datatype NewDuo = NewDuo(title: string, bio: string, user1Id: UserId, user2Id: UserId)

  /** The checks and derivations of `handleSubmit` before any photo is
      uploaded: a signed-in user, a chosen partner who is on the friend list;
      the title is "<userName> & <partner's name>", the user is member 1 and
      the partner member 2. */
  function PrepareDuo(user: Option<SessionUser>, partner: string, bio: string, friends: seq<FriendCard>): (r: Result<NewDuo, CreateError>)
    ensures user.None? ==> r == Err(NotLoggedIn)
    ensures user.Some? && partner == [] ==> r == Err(NoPartnerSelected)
    ensures user.Some? && partner != [] && !IsFriend(friends, partner) ==> r == Err(PartnerNotFound)
    ensures r.Ok? <==> user.Some? && partner != [] && IsFriend(friends, partner)
    ensures r.Ok? ==> r.value.user1Id == user.value.id && r.value.user2Id == partner && r.value.bio == bio
    ensures r.Ok? ==> r.value.title == UserName(user.value) + " & " + Interpolated(FindFriend(friends, partner).value.name)
  {
    if user.None? then Err(NotLoggedIn)
    else if partner == [] then Err(NoPartnerSelected)
    else
      match FindFriend(friends, partner)
      case None => Err(PartnerNotFound)
      case Some(friend) =>
        Ok(NewDuo(UserName(user.value) + " & " + Interpolated(friend.name), bio, user.value.id, partner))
  }
}
