/** The backend's friendship endpoints (controllers/friendshipController.ts)
    over an in-memory friendships table. A row links a sender to a receiver
    with a status; requests are sent, answered by their receiver, and rows
    are removed by either party. */
module FriendshipController {
  import opened Wrappers
  import opened Seqs
  import opened Entities

  datatype Status = Pending | Accepted | Declined

  /** One row of the `friendship` table. The uuid primary key is modelled as a
      number drawn from a counter. */
  datatype Friendship = Friendship(id: nat, sender: UserId, receiver: UserId, status: Status)

  /** The row links users `a` and `b`, in either direction. */
  predicate Joins(f: Friendship, a: UserId, b: UserId) {
    (f.sender == a && f.receiver == b) || (f.sender == b && f.receiver == a)
  }

  /** No two rows link the same two users, whatever their direction. */
  predicate PairsUnique(rows: seq<Friendship>) {
    forall i, j :: 0 <= i < j < |rows| ==> !Joins(rows[j], rows[i].sender, rows[i].receiver)
  }

  predicate IdsUnique(rows: seq<Friendship>) {
    forall i, j :: 0 <= i < j < |rows| ==> rows[i].id != rows[j].id
  }

  predicate IdsBelow(rows: seq<Friendship>, bound: nat) {
    forall i :: 0 <= i < |rows| ==> rows[i].id < bound
  }

  predicate NoSelfRows(rows: seq<Friendship>) {
    forall i :: 0 <= i < |rows| ==> rows[i].sender != rows[i].receiver
  }

  predicate PartiesKnown(rows: seq<Friendship>, users: set<UserId>) {
    forall i :: 0 <= i < |rows| ==> rows[i].sender in users && rows[i].receiver in users
  }

  /** `findOne({ where: [{sender_id: a, receiver_id: b}, {sender_id: b, receiver_id: a}] })`:
      the position of the first row linking `a` and `b`, if any. */
  function FindPair(rows: seq<Friendship>, a: UserId, b: UserId): (r: Option<nat>)
    ensures r.Some? ==> r.value < |rows| && Joins(rows[r.value], a, b)
    ensures r.Some? ==> forall k :: 0 <= k < r.value ==> !Joins(rows[k], a, b)
    ensures r.None? ==> forall k :: 0 <= k < |rows| ==> !Joins(rows[k], a, b)
  {
    if rows == [] then None
    else if Joins(rows[0], a, b) then Some(0)
    else match FindPair(rows[1..], a, b)
      case None => None
      case Some(k) => Some(k + 1)
  }

  /** `findOne({ where: { id } })`: the position of the row with that id, if any. */
  function FindById(rows: seq<Friendship>, id: nat): (r: Option<nat>)
    ensures r.Some? ==> r.value < |rows| && rows[r.value].id == id
    ensures r.None? ==> forall k :: 0 <= k < |rows| ==> rows[k].id != id
  {
    if rows == [] then None
    else if rows[0].id == id then Some(0)
    else match FindById(rows[1..], id)
      case None => None
      case Some(k) => Some(k + 1)
  }

  /** The number of rows linking `a` and `b`. */
  function CountJoining(rows: seq<Friendship>, a: UserId, b: UserId): nat {
    if rows == [] then 0
    else (if Joins(rows[0], a, b) then 1 else 0) + CountJoining(rows[1..], a, b)
  }

  lemma {:induction false} CountJoiningZero(rows: seq<Friendship>, a: UserId, b: UserId)
    requires forall k :: 0 <= k < |rows| ==> !Joins(rows[k], a, b)
    ensures CountJoining(rows, a, b) == 0
  {
    if rows != [] {
      CountJoiningZero(rows[1..], a, b);
    }
  }

  /** The table invariant means what it is meant to: for any two users there
      is at most one friendship row, in whichever direction it was sent. */
  lemma {:induction false} AtMostOneRowPerPair(rows: seq<Friendship>, a: UserId, b: UserId)
    requires PairsUnique(rows)
    ensures CountJoining(rows, a, b) <= 1
  {
    if rows != [] {
      if Joins(rows[0], a, b) {
        forall k | 0 <= k < |rows[1..]| ensures !Joins(rows[1..][k], a, b) {
          assert !Joins(rows[k + 1], rows[0].sender, rows[0].receiver);
        }
        CountJoiningZero(rows[1..], a, b);
      } else {
        AtMostOneRowPerPair(rows[1..], a, b);
      }
    }
  }

  /** The outcome of `sendFriendRequest`, one per response it can send. */
  datatype SendOutcome =
    | ReceiverRequired   // 400 'Receiver ID is required'
    | UserNotFound       // 404 'One or both users not found'
    | SelfRequest        // 400 'Cannot send friend request to yourself'
    | AlreadyFriends     // 400 'Already friends'
    | AlreadyPending     // 400 'Friend request already pending'
    | Reopened           // 200 'Friend request sent' (a declined row is pending again)
    | Created            // 201 'Friend request sent'
  {
    predicate IsError() {
      !(Reopened? || Created?)
    }
  }

  /** The HTTP status the endpoint answers with. */
  function SendStatusCode(o: SendOutcome): (code: int)
    ensures o.IsError() <==> code >= 400
    ensures code == 404 <==> o == UserNotFound
    ensures code == 201 <==> o == Created
  {
    match o
    case ReceiverRequired => 400
    case UserNotFound => 404
    case SelfRequest => 400
    case AlreadyFriends => 400
    case AlreadyPending => 400
    case Reopened => 200
    case Created => 201
  }

  /** The outcome of `respondToFriendRequest`. */
  datatype RespondOutcome =
    | RequestIdRequired            // 400 'Request ID is required'
    | RequestNotFound              // 404 'Friend request not found'
    | Responded(accepted: bool)    // 200 'Friend request accepted' / 'declined'

  /** The outcome of `removeFriend`. */
  datatype RemoveOutcome =
    | FriendshipNotFound           // 404 'Friendship not found'
    | Removed                      // 200 'Friend removed successfully'

  /** The columns of a user that the endpoints report: name, e-mail and
      photo URLs. */
  datatype UserProfile = UserProfile(name: string, email: string, photos: seq<string>)

  /** The friend as `getFriends` reports it: the other party's id, name,
      e-mail and photos, and the row id. */
  datatype FriendEntry = FriendEntry(id: UserId, profile: Option<UserProfile>, friendshipId: nat)

  /** What the join on the users table delivers for `u`. */
  function ProfileOf(profiles: map<UserId, UserProfile>, u: UserId): (p: Option<UserProfile>)
    ensures p.Some? <==> u in profiles
    ensures p.Some? ==> p.value == profiles[u]
  {
    if u in profiles then Some(profiles[u]) else None
  }

  /** Accepted rows the user sent (the first query of `getFriends`). */
  function SentAccepted(rows: seq<Friendship>, u: UserId): seq<Friendship> {
    Filter(rows, (f: Friendship) => f.sender == u && f.status == Accepted)
  }

  /** Accepted rows the user received (the second query of `getFriends`). */
  function ReceivedAccepted(rows: seq<Friendship>, u: UserId): seq<Friendship> {
    Filter(rows, (f: Friendship) => f.receiver == u && f.status == Accepted)
  }

  /** The friend entries for rows `u` sent: each profiles the receiver. */
  function ReceiversOf(fs: seq<Friendship>, profiles: map<UserId, UserProfile>): (r: seq<FriendEntry>)
    ensures |r| == |fs|
    ensures forall i :: 0 <= i < |fs| ==> r[i] == FriendEntry(fs[i].receiver, ProfileOf(profiles, fs[i].receiver), fs[i].id)
  {
    seq(|fs|, i requires 0 <= i < |fs| => FriendEntry(fs[i].receiver, ProfileOf(profiles, fs[i].receiver), fs[i].id))
  }

  /** The friend entries for rows `u` received: each profiles the sender. */
  function SendersOf(fs: seq<Friendship>, profiles: map<UserId, UserProfile>): (r: seq<FriendEntry>)
    ensures |r| == |fs|
    ensures forall i :: 0 <= i < |fs| ==> r[i] == FriendEntry(fs[i].sender, ProfileOf(profiles, fs[i].sender), fs[i].id)
  {
    seq(|fs|, i requires 0 <= i < |fs| => FriendEntry(fs[i].sender, ProfileOf(profiles, fs[i].sender), fs[i].id))
  }

  /** `getFriends`: the friends from the rows `u` sent, then those from the
      rows `u` received. */
  function FriendsOf(rows: seq<Friendship>, profiles: map<UserId, UserProfile>, u: UserId): (r: seq<FriendEntry>)
    ensures |r| == |SentAccepted(rows, u)| + |ReceivedAccepted(rows, u)|
  {
    ReceiversOf(SentAccepted(rows, u), profiles) + SendersOf(ReceivedAccepted(rows, u), profiles)
  }

  /** Every entry of `getFriends` comes from an accepted row involving `u`
      and profiles the other party: the first `|SentAccepted|` entries from rows
      `u` sent, the rest from rows `u` received. */
  lemma FriendsOfSound(rows: seq<Friendship>, profiles: map<UserId, UserProfile>, u: UserId, i: nat)
    requires i < |FriendsOf(rows, profiles, u)|
    ensures var e := FriendsOf(rows, profiles, u)[i];
      if i < |SentAccepted(rows, u)| then
        exists f :: f in rows && f.status == Accepted && f.sender == u
          && e == FriendEntry(f.receiver, ProfileOf(profiles, f.receiver), f.id)
      else
        exists f :: f in rows && f.status == Accepted && f.receiver == u
          && e == FriendEntry(f.sender, ProfileOf(profiles, f.sender), f.id)
  {
    var sent := SentAccepted(rows, u);
    var received := ReceivedAccepted(rows, u);
    var r := FriendsOf(rows, profiles, u);
    if i < |sent| {
      assert r[i] == ReceiversOf(sent, profiles)[i];
      assert sent[i] in rows;
    } else {
      assert r[i] == SendersOf(received, profiles)[i - |sent|];
      assert received[i - |sent|] in rows;
    }
  }

  /** Every accepted row involving `u` gives an entry of `getFriends`, in the
      part that matches its direction. */
  lemma FriendsOfComplete(rows: seq<Friendship>, profiles: map<UserId, UserProfile>, u: UserId, f: Friendship)
    requires f in rows && f.status == Accepted
    ensures var r := FriendsOf(rows, profiles, u);
      && (f.sender == u ==>
            FriendEntry(f.receiver, ProfileOf(profiles, f.receiver), f.id) in r[..|SentAccepted(rows, u)|])
      && (f.receiver == u ==>
            FriendEntry(f.sender, ProfileOf(profiles, f.sender), f.id) in r[|SentAccepted(rows, u)|..])
  {
    var sent := SentAccepted(rows, u);
    var received := ReceivedAccepted(rows, u);
    var r := FriendsOf(rows, profiles, u);
    assert r[..|sent|] == ReceiversOf(sent, profiles);
    assert r[|sent|..] == SendersOf(received, profiles);
    var k :| 0 <= k < |rows| && rows[k] == f;
    if f.sender == u {
      var j :| 0 <= j < |sent| && sent[j] == f;
      assert ReceiversOf(sent, profiles)[j] == FriendEntry(f.receiver, ProfileOf(profiles, f.receiver), f.id);
    }
    if f.receiver == u {
      var j :| 0 <= j < |received| && received[j] == f;
      assert SendersOf(received, profiles)[j] == FriendEntry(f.sender, ProfileOf(profiles, f.sender), f.id);
    }
  }

  /** A pending request as `getFriendRequests` reports it: the row id and the
      sender's id, name, e-mail and photos. */
  datatype RequestEntry = RequestEntry(id: nat, senderId: UserId, sender: Option<UserProfile>)

  /** `getFriendRequests`: the pending rows whose receiver is `u`, with their
      senders, in table order. Every such row is listed. */
  function RequestsFor(rows: seq<Friendship>, profiles: map<UserId, UserProfile>, u: UserId): (r: seq<RequestEntry>)
    ensures |r| <= |rows|
    ensures forall f :: f in rows && f.status == Pending && f.receiver == u ==>
      RequestEntry(f.id, f.sender, ProfileOf(profiles, f.sender)) in r
    ensures var ix := FilterIndices(rows, (f: Friendship) => f.receiver == u && f.status == Pending);
      |r| == |ix| && forall k :: 0 <= k < |r| ==>
        r[k] == RequestEntry(rows[ix[k]].id, rows[ix[k]].sender, ProfileOf(profiles, rows[ix[k]].sender))
  {
    RequestsComplete(rows, profiles, u);
    FilterInOrder(rows, (f: Friendship) => f.receiver == u && f.status == Pending);
    EntriesOf(PendingFor(rows, u), profiles)
  }

  /** The query's `where: { receiver: { id: u }, status: Pending }`. */
  function PendingFor(rows: seq<Friendship>, u: UserId): seq<Friendship> {
    Filter(rows, (f: Friendship) => f.receiver == u && f.status == Pending)
  }

  /** Each row as a request entry with its sender. */
  function EntriesOf(fs: seq<Friendship>, profiles: map<UserId, UserProfile>): (r: seq<RequestEntry>)
    ensures |r| == |fs|
    ensures forall i :: 0 <= i < |fs| ==> r[i] == RequestEntry(fs[i].id, fs[i].sender, ProfileOf(profiles, fs[i].sender))
  {
    seq(|fs|, i requires 0 <= i < |fs| => RequestEntry(fs[i].id, fs[i].sender, ProfileOf(profiles, fs[i].sender)))
  }

  lemma RequestsComplete(rows: seq<Friendship>, profiles: map<UserId, UserProfile>, u: UserId)
    ensures forall f :: f in rows && f.status == Pending && f.receiver == u ==>
      RequestEntry(f.id, f.sender, ProfileOf(profiles, f.sender)) in EntriesOf(PendingFor(rows, u), profiles)
  {
    var pending := PendingFor(rows, u);
    var r := EntriesOf(pending, profiles);
    forall f | f in rows && f.status == Pending && f.receiver == u
      ensures RequestEntry(f.id, f.sender, ProfileOf(profiles, f.sender)) in r
    {
      var k :| 0 <= k < |rows| && rows[k] == f;
      var j :| 0 <= j < |pending| && pending[j] == f;
      assert r[j] == RequestEntry(f.id, f.sender, ProfileOf(profiles, f.sender));
    }
  }

  /** Every listed request is a pending row received by `u`, shown with its
      sender. */
  lemma RequestsForSound(rows: seq<Friendship>, profiles: map<UserId, UserProfile>, u: UserId, i: nat)
    requires i < |RequestsFor(rows, profiles, u)|
    ensures var e := RequestsFor(rows, profiles, u)[i];
      exists f :: f in rows && f.status == Pending && f.receiver == u
        && e == RequestEntry(f.id, f.sender, ProfileOf(profiles, f.sender))
  {
    var f := PendingFor(rows, u)[i];
    FilterMember(rows, (f: Friendship) => f.receiver == u && f.status == Pending, f);
  }

  /** Removing one row keeps every table invariant. */
  lemma RemoveKeepsInvariants(rows: seq<Friendship>, k: nat, users: set<UserId>, bound: nat)
    requires k < |rows|
    requires PairsUnique(rows) && IdsUnique(rows) && IdsBelow(rows, bound)
    requires NoSelfRows(rows) && PartiesKnown(rows, users)
    ensures var rest := rows[..k] + rows[k + 1..];
      PairsUnique(rest) && IdsUnique(rest) && IdsBelow(rest, bound)
      && NoSelfRows(rest) && PartiesKnown(rest, users)
  {
    var rest := rows[..k] + rows[k + 1..];
    assert forall i :: 0 <= i < |rest| ==> rest[i] == rows[if i < k then i else i + 1];
  }

  /** The friendships table and the users it refers to. */
  class FriendshipTable {
    const users: set<UserId>
    var rows: seq<Friendship>
    var nextId: nat

    ghost predicate Valid()
      reads this
    {
      PairsUnique(rows) && IdsUnique(rows) && IdsBelow(rows, nextId)
      && NoSelfRows(rows) && PartiesKnown(rows, users)
    }

    constructor (users: set<UserId>)
      ensures Valid()
      ensures this.users == users && rows == []
    {
      this.users := users;
      rows := [];
      nextId := 0;
    }

    /** The checks `sendFriendRequest` makes before it looks at the table. */
    predicate RequestAdmissible(caller: UserId, receiverId: UserId) {
      receiverId != "" && caller in users && receiverId in users && caller != receiverId
    }

    /** `sendFriendRequest`: validates, refuses a pair that is already linked
        as friends or by a pending request, re-opens a declined row, and
        otherwise adds one pending row from the caller to the receiver. */
    method SendFriendRequest(caller: UserId, receiverId: UserId) returns (outcome: SendOutcome)
      requires Valid()
      modifies this
      ensures Valid()
      ensures receiverId == "" ==> outcome == ReceiverRequired
      ensures receiverId != "" && (caller !in users || receiverId !in users) ==> outcome == UserNotFound
      ensures receiverId != "" && caller in users && receiverId in users && caller == receiverId ==>
        outcome == SelfRequest
      ensures outcome.IsError() ==> rows == old(rows) && nextId == old(nextId)
      ensures RequestAdmissible(caller, receiverId) ==>
        match FindPair(old(rows), caller, receiverId)
        case None =>
          && outcome == Created
          && rows == old(rows) + [Friendship(old(nextId), caller, receiverId, Pending)]
        case Some(k) =>
          && (old(rows)[k].status == Accepted ==> outcome == AlreadyFriends)
          && (old(rows)[k].status == Pending ==> outcome == AlreadyPending)
          && (old(rows)[k].status == Declined ==>
                outcome == Reopened && rows == old(rows)[k := old(rows)[k].(status := Pending)])
    {
      if receiverId == "" {
        return ReceiverRequired;
      }
      if caller !in users || receiverId !in users {
        return UserNotFound;
      }
      if caller == receiverId {
        return SelfRequest;
      }
      var existing := FindPair(rows, caller, receiverId);
      if existing.Some? {
        var k := existing.value;
        match rows[k].status
        case Accepted =>
          return AlreadyFriends;
        case Pending =>
          return AlreadyPending;
        case Declined =>
          rows := rows[k := rows[k].(status := Pending)];
          return Reopened;
      }
      var f := Friendship(nextId, caller, receiverId, Pending);
      rows := rows + [f];
      nextId := nextId + 1;
      outcome := Created;
    }

    /** `respondToFriendRequest`: only the receiver of a pending request can
        answer it; the answer sets the row to accepted or declined. */
    method RespondToFriendRequest(caller: UserId, requestId: Option<nat>, accept: bool)
      returns (outcome: RespondOutcome)
      requires Valid()
      modifies this
      ensures Valid() && nextId == old(nextId)
      ensures requestId.None? ==> outcome == RequestIdRequired && rows == old(rows)
      ensures requestId.Some? ==>
        match FindById(old(rows), requestId.value)
        case Some(k) =>
          if old(rows)[k].receiver == caller && old(rows)[k].status == Pending then
            && outcome == Responded(accept)
            && rows == old(rows)[k := old(rows)[k].(status := if accept then Accepted else Declined)]
          else
            outcome == RequestNotFound && rows == old(rows)
        case None =>
          outcome == RequestNotFound && rows == old(rows)
    {
      if requestId.None? {
        return RequestIdRequired;
      }
      var found := FindById(rows, requestId.value);
      if found.None? || rows[found.value].receiver != caller || rows[found.value].status != Pending {
        return RequestNotFound;
      }
      var k := found.value;
      rows := rows[k := rows[k].(status := if accept then Accepted else Declined)];
      outcome := Responded(accept);
    }

    /** `removeFriend`: either party can delete a row, whatever its status. */
    method RemoveFriend(caller: UserId, friendshipId: nat) returns (outcome: RemoveOutcome)
      requires Valid()
      modifies this
      ensures Valid() && nextId == old(nextId)
      ensures match FindById(old(rows), friendshipId)
        case Some(k) =>
          if old(rows)[k].sender == caller || old(rows)[k].receiver == caller then
            outcome == Removed && rows == old(rows)[..k] + old(rows)[k + 1..]
          else
            outcome == FriendshipNotFound && rows == old(rows)
        case None =>
          outcome == FriendshipNotFound && rows == old(rows)
    {
      var found := FindById(rows, friendshipId);
      if found.None? || (rows[found.value].sender != caller && rows[found.value].receiver != caller) {
        return FriendshipNotFound;
      }
      var k := found.value;
      RemoveKeepsInvariants(rows, k, users, nextId);
      rows := rows[..k] + rows[k + 1..];
      outcome := Removed;
    }
  }
}
