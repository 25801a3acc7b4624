/** The backend's duo endpoints (controllers/duoController.ts) over an
    in-memory duo table and a read-only set of known users: create a duo,
    list and fetch the caller's duos, and update one. */
module DuoController {
  import opened Wrappers
  import opened Seqs
  import opened Entities

  /** The error responses of the duo endpoints. */
  datatype DuoError =
    | UsersNotFound   // 404 'One or both users not found'
    | DuoNotFound     // 404 'Duo not found'
    | NotAMember      // 403 'Unauthorized to view / update this duo'

  function DuoErrorStatusCode(e: DuoError): (code: int)
    ensures code == 403 <==> e == NotAMember
    ensures code == 404 <==> e != NotAMember
  {
    match e
    case UsersNotFound => 404
    case DuoNotFound => 404
    case NotAMember => 403
  }

  /** The position of the duo with id `id` in the table, if any. */
  function IndexOfDuo(duos: seq<Duo>, id: DuoId): (r: Option<nat>)
    ensures r.Some? ==> r.value < |duos| && duos[r.value].id == id
    ensures r.None? ==> forall k :: 0 <= k < |duos| ==> duos[k].id != id
  {
    if duos == [] then None
    else if duos[0].id == id then Some(0)
    else match IndexOfDuo(duos[1..], id)
      case None => None
      case Some(k) => Some(k + 1)
  }

  /** The field updates of `updateDuo`: `title ?? duo.title` and the like.
      An absent field keeps its value; the members and the id never change. */
  function ApplyUpdate(d: Duo, title: Option<string>, bio: Option<string>, photos: Option<seq<string>>): (r: Duo)
    ensures r.id == d.id && r.user1 == d.user1 && r.user2 == d.user2
    ensures r.latitude == d.latitude && r.longitude == d.longitude
    ensures r.title == (if title.Some? then title.value else d.title)
    ensures r.bio == (if bio.Some? then bio else d.bio)
    ensures r.photos == (if photos.Some? then photos.value else d.photos)
  {
    d.(title := title.GetOr(d.title),
       bio := if bio.Some? then bio else d.bio,
       photos := photos.GetOr(d.photos))
  }

  /** Updating with every field absent changes nothing. */
  lemma ApplyUpdateNothing(d: Duo)
    ensures ApplyUpdate(d, None, None, None) == d
  {
  }

  /** The duo table. Ids of stored duos are distinct. */
  class DuoRepository {
    const users: map<UserId, UserRef>
    var duos: seq<Duo>

    ghost predicate Valid()
      reads this
    {
      forall i, j :: 0 <= i < j < |duos| ==> duos[i].id != duos[j].id
    }

    constructor (users: map<UserId, UserRef>)
      ensures Valid() && this.users == users && duos == []
    {
      this.users := users;
      duos := [];
    }

    /** `createDuo`: both users must exist; the duo joins the caller (user1)
        and `userId2` (user2) with the given title and bio, and no photos when
        none are supplied. `newId` is the uuid the database generates. */
    method CreateDuo(caller: UserId, title: string, bio: Option<string>, photos: Option<seq<string>>, userId2: UserId,
                     newId: DuoId)
      returns (r: Result<Duo, DuoError>)
      requires Valid()
      requires forall k :: 0 <= k < |duos| ==> duos[k].id != newId
      modifies this
      ensures Valid()
      ensures (caller !in users || userId2 !in users) ==> r == Err(UsersNotFound) && duos == old(duos)
      ensures caller in users && userId2 in users ==>
        && r.Ok?
        && r.value.user1 == users[caller] && r.value.user2 == users[userId2]
        && r.value.title == title && r.value.bio == bio
        && r.value.photos == photos.GetOr([]) && r.value.id == newId
        && duos == old(duos) + [r.value]
    {
      if caller !in users || userId2 !in users {
        return Err(UsersNotFound);
      }
      var d := Duo(newId, title, bio, photos.GetOr([]), users[caller], users[userId2], None, None);
      duos := duos + [d];
      r := Ok(d);
    }

    /** `getUserDuos`: the stored duos the caller belongs to, in table order. */
    function UserDuos(caller: UserId): (r: seq<Duo>)
      reads this
      ensures forall i :: 0 <= i < |r| ==> r[i] in duos && r[i].HasMember(caller)
      ensures forall k :: 0 <= k < |duos| && duos[k].HasMember(caller) ==> duos[k] in r
      ensures var ix := FilterIndices(duos, (d: Duo) => d.HasMember(caller));
        |r| == |ix| && forall k :: 0 <= k < |r| ==> r[k] == duos[ix[k]]
    {
      FilterInOrder(duos, (d: Duo) => d.HasMember(caller));
      Filter(duos, (d: Duo) => d.HasMember(caller))
    }

    /** `getDuo`: 404 for an unknown id, 403 for a caller outside the duo,
        otherwise the duo. */
    function GetDuo(caller: UserId, id: DuoId): (r: Result<Duo, DuoError>)
      reads this
      ensures r.Ok? ==> r.value in duos && r.value.id == id && r.value.HasMember(caller)
      ensures r == Err(DuoNotFound) <==> forall k :: 0 <= k < |duos| ==> duos[k].id != id
      ensures r == Err(NotAMember) ==> exists k :: 0 <= k < |duos| && duos[k].id == id && !duos[k].HasMember(caller)
      ensures r.Err? ==> r.error != UsersNotFound
    {
      match IndexOfDuo(duos, id)
      case None => Err(DuoNotFound)
      case Some(k) =>
        if !duos[k].HasMember(caller) then Err(NotAMember) else Ok(duos[k])
    }

    /** `updateDuo`: after the same 404 and 403 checks as `getDuo`, overwrites
        title, bio and photos where a value is supplied. */
    method UpdateDuo(caller: UserId, id: DuoId, title: Option<string>, bio: Option<string>, photos: Option<seq<string>>)
      returns (r: Result<Duo, DuoError>)
      requires Valid()
      modifies this
      ensures Valid()
      ensures match IndexOfDuo(old(duos), id)
        case None => r == Err(DuoNotFound) && duos == old(duos)
        case Some(k) =>
          if !old(duos)[k].HasMember(caller) then
            r == Err(NotAMember) && duos == old(duos)
          else
            r == Ok(ApplyUpdate(old(duos)[k], title, bio, photos)) && duos == old(duos)[k := r.value]
    {
      var found := IndexOfDuo(duos, id);
      if found.None? {
        return Err(DuoNotFound);
      }
      var k := found.value;
      if !duos[k].HasMember(caller) {
        return Err(NotAMember);
      }
      var d := ApplyUpdate(duos[k], title, bio, photos);
      duos := duos[k := d];
      r := Ok(d);
    }
  }
}
